/** The structured statements that lowering takes, and what running them means: which world they leave behind, and how
    they end. What single actions, tests and calls do is not known; an error is a pointer, and 0 is no error. */
module Structured {

  type World(!new)

  type Value(!new)

  // confirm: the callee is a function value, which can be a function of C, whose flag says nothing.
  // throwsResult: the error the call gives back is not taken, so it is thrown.
  datatype CallSite = CallSite(callee: int, confirm: bool, throwsResult: bool)

  // The calls of an expression in the order they run, and what is done with their results
  datatype Expr = Expr(calls: seq<CallSite>, value: int)

  datatype Cond = Atom(test: Expr) | And(left: Cond, right: Cond) | Or(left: Cond, right: Cond) | Not(operand: Cond)

  datatype Stmts = Nil | Cons(head: Stmt, tail: Stmts)

  datatype Arms = ElseIf(cond: Cond, body: Stmts, rest: Arms) | Else(body: Stmts)

  // Loops have a key, by which break and continue name them.
  datatype Stmt =
    | Do(e: Expr)
    | BlockStmt(body: Stmts)
    | If(cond: Cond, body: Stmts, rest: Arms)
    | While(key: int, cond: Cond, body: Stmts)
    | Forever(key: int, body: Stmts)
    | For(key: int, init: Expr, test: int, bind: int, post: int, body: Stmts)
    | Break(key: int)
    | Continue(key: int)
    | Return(e: Expr)
    | Defer(deferred: Stmt)
    | Try(body: Stmts, variable: int, handler: Stmts)
    | Throw(e: Expr)

  // ---------------------------------------------------------------------------------------
  // Sizes
  // ---------------------------------------------------------------------------------------

  function Size(s: Stmt): nat
    decreases s
  {
    match s
    case BlockStmt(body) => 1 + SizeAll(body)
    case If(_, body, rest) => 2 + SizeAll(body) + SizeArms(rest)
    case While(_, _, body) => 1 + SizeAll(body)
    case Forever(_, body) => 1 + SizeAll(body)
    case For(_, _, _, _, _, body) => 1 + SizeAll(body)
    case Defer(deferred) => 1 + Size(deferred)
    case Try(body, _, handler) => 1 + SizeAll(body) + SizeAll(handler)
    case _ => 1
  }

  function SizeAll(ss: Stmts): nat
    decreases ss
  {
    match ss
    case Nil => 0
    case Cons(head, tail) => Size(head) + SizeAll(tail)
  }

  function SizeArms(a: Arms): nat
    decreases a
  {
    match a
    case ElseIf(_, body, rest) => 1 + SizeAll(body) + SizeArms(rest)
    case Else(body) => SizeAll(body)
  }

  function SizeOf(stack: seq<Stmt>): nat
    decreases |stack|
  {
    if |stack| == 0 then 0 else SizeOf(stack[..|stack| - 1]) + Size(stack[|stack| - 1])
  }

  lemma SizeIsPositive(s: Stmt)
    ensures Size(s) > 0
  {
  }

  lemma SizeOfPushed(stack: seq<Stmt>, s: Stmt)
    ensures SizeOf(stack + [s]) == SizeOf(stack) + Size(s)
  {
    assert (stack + [s])[..|stack|] == stack;
  }

  // ---------------------------------------------------------------------------------------
  // Meaning
  // ---------------------------------------------------------------------------------------

  // What a call leaves behind: flag is what the callee returned, thrown the error that is being thrown.
  datatype CallEffect = CallEffect(world: World, flag: nat, thrown: nat)

  datatype Meaning = Meaning(
    call: (CallSite, World) -> CallEffect,
    errorOf: (CallSite, World) -> nat,
    act: (int, World) -> World,
    test: (int, World) -> bool,
    error: (int, World) -> nat,
    value: (int, World) -> Value,
    bind: (int, nat, World) -> World)

  // A function that throws returns a flag that is not 0; a function of the language returns such a flag only then.
  ghost predicate CalleesAgree(env: Meaning) {
    forall c: CallSite, w: World ::
      && (env.call(c, w).thrown != 0 ==> env.call(c, w).flag != 0)
      && (!c.confirm && env.call(c, w).flag != 0 ==> env.call(c, w).thrown != 0)
  }

  // Timeout: a loop did not end within the limit on its rounds.
  // Stuck: a deferred statement did not end normally, or a loop was left from outside of it; what happens then is not
  // defined here.
  datatype Outcome =
    | Normal
    | BreakTo(key: int)
    | ContinueTo(key: int)
    | Returned(value: Value)
    | Threw(error: nat)
    | Timeout
    | Stuck

  datatype Result = Result(out: Outcome, world: World)

  function EvalCall(env: Meaning, call: CallSite, w: World): Result {
    var effect := env.call(call, w);
    if effect.thrown != 0 then Result(Threw(effect.thrown), effect.world)
    else if call.throwsResult && env.errorOf(call, effect.world) != 0 then Result(Threw(env.errorOf(call, effect.world)), effect.world)
    else Result(Normal, effect.world)
  }

  function EvalCalls(env: Meaning, calls: seq<CallSite>, w: World): Result
    decreases |calls|
  {
    if |calls| == 0 then Result(Normal, w)
    else
      var r := EvalCall(env, calls[0], w);
      if r.out.Normal? then EvalCalls(env, calls[1..], r.world) else r
  }

  datatype CondResult = CondResult(truth: bool, result: Result)

  function EvalCond(env: Meaning, cond: Cond, w: World): CondResult
    decreases cond
  {
    match cond
    case Atom(e) =>
      var r := EvalCalls(env, e.calls, w);
      CondResult(env.test(e.value, r.world), r)
    case And(left, right) =>
      var l := EvalCond(env, left, w);
      if l.result.out.Normal? && l.truth then EvalCond(env, right, l.result.world) else l
    case Or(left, right) =>
      var l := EvalCond(env, left, w);
      if l.result.out.Normal? && !l.truth then EvalCond(env, right, l.result.world) else l
    case Not(operand) =>
      var o := EvalCond(env, operand, w);
      CondResult(!o.truth, o.result)
  }

  // Which ways out there are: the loops around, and whether an error can be thrown out.
  datatype Scope = Scope(keys: set<int>, throws: bool)

  // A deferred statement has to end normally.
  const DEFERRED := Scope({}, false)

  const FUNCTION := Scope({}, true)

  predicate Allows(scope: Scope, out: Outcome) {
    match out
    case BreakTo(key) => key in scope.keys
    case ContinueTo(key) => key in scope.keys
    case Threw(_) => scope.throws
    case _ => true
  }

  function Admit(scope: Scope, r: Result): (admitted: Result)
    ensures Allows(scope, admitted.out)
  {
    if Allows(scope, r.out) then r else Result(Stuck, r.world)
  }

  function InLoop(scope: Scope, key: int): Scope {
    scope.(keys := scope.keys + {key})
  }

  function Exec(env: Meaning, scope: Scope, s: Stmt, w: World, limit: nat): (r: Result)
    ensures Allows(scope, r.out)
    decreases Size(s), 2, 0
  {
    match s
    case Do(e) =>
      var r := EvalCalls(env, e.calls, w);
      if r.out.Normal? then Result(Normal, env.act(e.value, r.world)) else Admit(scope, r)
    case BlockStmt(body) => ExecBlock(env, scope, body, w, limit)
    case If(cond, body, rest) => ExecArms(env, scope, ElseIf(cond, body, rest), w, limit)
    case While(_, _, _) => ExecWhile(env, scope, s, w, limit, limit)
    case Forever(_, _) => ExecForever(env, scope, s, w, limit, limit)
    case For(_, init, _, _, _, _) =>
      var r := EvalCalls(env, init.calls, w);
      if r.out.Normal? then ExecFor(env, scope, s, env.act(init.value, r.world), limit, limit) else Admit(scope, r)
    case Break(key) => Admit(scope, Result(BreakTo(key), w))
    case Continue(key) => Admit(scope, Result(ContinueTo(key), w))
    case Return(e) =>
      var r := EvalCalls(env, e.calls, w);
      if r.out.Normal? then Result(Returned(env.value(e.value, r.world)), r.world) else Admit(scope, r)
    case Defer(_) => Result(Stuck, w)
    case Try(body, variable, handler) =>
      var r := ExecBlock(env, scope.(throws := true), body, w, limit);
      if r.out.Threw? then ExecBlock(env, scope, handler, env.bind(variable, r.out.error, r.world), limit) else r
    case Throw(e) =>
      var r := EvalCalls(env, e.calls, w);
      if r.out.Normal? && env.error(e.value, r.world) != 0 then Admit(scope, Result(Threw(env.error(e.value, r.world)), r.world))
      else Admit(scope, r)
  }

  function ExecArms(env: Meaning, scope: Scope, arms: Arms, w: World, limit: nat): (r: Result)
    ensures Allows(scope, r.out)
    decreases SizeArms(arms), 7, 0
  {
    match arms
    case Else(body) => ExecBlock(env, scope, body, w, limit)
    case ElseIf(cond, body, rest) =>
      var c := EvalCond(env, cond, w);
      if !c.result.out.Normal? then Admit(scope, c.result)
      else if c.truth then ExecBlock(env, scope, body, c.result.world, limit)
      else ExecArms(env, scope, rest, c.result.world, limit)
  }

  // How a loop goes on after a round of its body
  datatype Round = GoOn | Leave(out: Outcome)

  function AfterRound(out: Outcome, key: int): Round {
    if out == Normal || out == ContinueTo(key) then GoOn
    else if out == BreakTo(key) then Leave(Normal)
    else Leave(out)
  }

  function ExecWhile(env: Meaning, scope: Scope, s: Stmt, w: World, limit: nat, rounds: nat): (r: Result)
    requires s.While?
    ensures Allows(scope, r.out)
    decreases Size(s), 1, rounds
  {
    var c := EvalCond(env, s.cond, w);
    if rounds == 0 then Result(Timeout, w)
    else if !c.result.out.Normal? then Admit(scope, c.result)
    else if !c.truth then Result(Normal, c.result.world)
    else
      var r := ExecBlock(env, InLoop(scope, s.key), s.body, c.result.world, limit);
      match AfterRound(r.out, s.key)
      case GoOn => ExecWhile(env, scope, s, r.world, limit, rounds - 1)
      case Leave(out) => Result(out, r.world)
  }

  function ExecForever(env: Meaning, scope: Scope, s: Stmt, w: World, limit: nat, rounds: nat): (r: Result)
    requires s.Forever?
    ensures Allows(scope, r.out)
    decreases Size(s), 1, rounds
  {
    if rounds == 0 then Result(Timeout, w)
    else
      var r := ExecBlock(env, InLoop(scope, s.key), s.body, w, limit);
      match AfterRound(r.out, s.key)
      case GoOn => ExecForever(env, scope, s, r.world, limit, rounds - 1)
      case Leave(out) => Result(out, r.world)
  }

  function ExecFor(env: Meaning, scope: Scope, s: Stmt, w: World, limit: nat, rounds: nat): (r: Result)
    requires s.For?
    ensures Allows(scope, r.out)
    decreases Size(s), 1, rounds
  {
    if rounds == 0 then Result(Timeout, w)
    else if !env.test(s.test, w) then Result(Normal, w)
    else
      var r := ExecBlock(env, InLoop(scope, s.key), s.body, env.act(s.bind, w), limit);
      match AfterRound(r.out, s.key)
      case GoOn => ExecFor(env, scope, s, env.act(s.post, r.world), limit, rounds - 1)
      case Leave(out) => Result(out, r.world)
  }

  function ExecBlock(env: Meaning, scope: Scope, body: Stmts, w: World, limit: nat): (r: Result)
    ensures Allows(scope, r.out)
    decreases SizeAll(body), 6, 0
  {
    ExecList(env, scope, body, [], w, limit)
  }

  // The rest of a block; pending are the deferred statements that were reached in it, in their order.
  function ExecList(env: Meaning, scope: Scope, stmts: Stmts, pending: seq<Stmt>, w: World, limit: nat): (r: Result)
    ensures Allows(scope, r.out)
    decreases SizeOf(pending) + SizeAll(stmts), 5, 0
  {
    match stmts
    case Nil => LeaveBlock(env, pending, Result(Normal, w), limit)
    case Cons(head, tail) =>
      if head.Defer? then
        SizeOfPushed(pending, head.deferred);
        assert Size(head) == 1 + Size(head.deferred);
        ExecList(env, scope, tail, pending + [head.deferred], w, limit)
      else
        var r := Exec(env, scope, head, w, limit);
        if r.out.Normal? then
          SizeIsPositive(head);
          ExecList(env, scope, tail, pending, r.world, limit)
        else LeaveBlock(env, pending, r, limit)
  }

  // However a block is left, its pending statements run, and then it ends as it was left.
  function LeaveBlock(env: Meaning, pending: seq<Stmt>, r: Result, limit: nat): (left: Result)
    ensures left.out == r.out || left.out.Timeout? || left.out.Stuck?
    decreases SizeOf(pending), 4, 0
  {
    if r.out.Timeout? || r.out.Stuck? then r
    else
      var d := RunDefers(env, pending, r.world, limit);
      if d.out.Normal? then Result(r.out, d.world) else d
  }

  // Runs deferred statements, the last one first
  function RunDefers(env: Meaning, pending: seq<Stmt>, w: World, limit: nat): (r: Result)
    ensures r.out.Normal? || r.out.Timeout? || r.out.Stuck?
    decreases SizeOf(pending), 3, |pending|
  {
    if |pending| == 0 then Result(Normal, w)
    else
      var r := Exec(env, DEFERRED, pending[|pending| - 1], w, limit);
      if r.out.Normal? then RunDefers(env, pending[..|pending| - 1], r.world, limit)
      else if r.out.Timeout? then r
      else Result(Stuck, r.world)
  }

  // Below the last run, the others run as if they were alone.
  lemma {:induction false} RunDefersConcat(env: Meaning, below: seq<Stmt>, above: seq<Stmt>, w: World, limit: nat)
    ensures RunDefers(env, below + above, w, limit) ==
            var d := RunDefers(env, above, w, limit);
            if d.out.Normal? then RunDefers(env, below, d.world, limit) else d
    decreases |above|
  {
    var all := below + above;
    if |above| == 0 {
      assert all == below;
    } else {
      var rest := above[..|above| - 1];
      assert all[..|all| - 1] == below + rest && all[|all| - 1] == above[|above| - 1];
      var r := Exec(env, DEFERRED, above[|above| - 1], w, limit);
      if r.out.Normal? {
        RunDefersConcat(env, below, rest, r.world, limit);
      }
    }
  }
}
