/** What lowering a whole function comes to: its blocks end exactly when its statements do, with the same world, the same
    result, and the same error thrown out of it. */
module LoweredFunctions {
  import opened Structured
  import opened ControlFlow
  import opened Lowering
  import opened LoweringGrowth
  import opened LoweringCorrect

  function Start(m: Mem): State {
    At(Place(0, 0), m)
  }

  // How a run of the blocks ended is how the statements did.
  ghost predicate EndsAs(s: State, r: Result, m: Mem) {
    && s.Done?
    && s.threw == r.out.Threw?
    && Settled(s.mem, r.world, r.out, m, 0)
  }

  predicate IsEnd(out: Outcome) {
    out.Normal? || out.Returned? || out.Threw?
  }

  lemma FunctionEnds(body: Stmts)
    ensures LowerBlock(Context([], [], []), START, body).Open()
    ensures Grew(LowerBlock(Context([], [], []), START, body).blocks, LowerFunction(body))
  {
    var lowered := LowerBlock(Context([], [], []), START, body);
    BlockExtends(Context([], [], []), START, body);
    ExtendsTerminate(lowered, Ret(false));
  }

  // Every end of the statements is one of the blocks; while the statements go on, so do the blocks.
  lemma LoweredRuns(env: Meaning, body: Stmts, m: Mem, limit: nat) returns (n: nat)
    requires CalleesAgree(env) && m.thrown == 0
    ensures var r := ExecBlock(env, FUNCTION, body, m.world, limit);
            && (IsEnd(r.out) ==> EndsAs(Run(env, LowerFunction(body), Start(m), n), r, m))
            && (r.out.Timeout? ==> Lives(env, LowerFunction(body), Start(m), limit))
            && (IsEnd(r.out) || r.out.Timeout? || r.out.Stuck?)
  {
    var run := Setting(env, LowerFunction(body), limit);
    var ctx := Context([], [], []);
    var lowered := LowerBlock(ctx, START, body);
    FunctionEnds(body);
    var n1, m1 := BlockRuns(run, ctx, FUNCTION, START, body, m);
    n := n1;
    if ExecBlock(env, FUNCTION, body, m.world, limit).out.Normal? {
      TerminatorRuns(env, run.g, lowered, Ret(false), m1);
      RunAdd(env, run.g, Start(m), n1, 1);
      n := n1 + 1;
    }
  }

  lemma RunsAgree(env: Meaning, g: seq<Block>, s: State, a: nat, b: nat)
    requires Run(env, g, s, a).Done? && Run(env, g, s, b).Done?
    ensures Run(env, g, s, a) == Run(env, g, s, b)
  {
    var low, high := if a < b then a else b, if a < b then b else a;
    RunAdd(env, g, s, low, high - low);
    RunEnded(env, g, Run(env, g, s, low), high - low);
  }

  // Every end of the blocks is one of the statements, within as many rounds of their loops as the run took steps.
  lemma LoweredEndsAsSource(env: Meaning, body: Stmts, m: Mem, steps: nat)
    requires CalleesAgree(env) && m.thrown == 0
    requires Run(env, LowerFunction(body), Start(m), steps).Done?
    ensures var r := ExecBlock(env, FUNCTION, body, m.world, steps);
            r.out.Stuck? || (IsEnd(r.out) && EndsAs(Run(env, LowerFunction(body), Start(m), steps), r, m))
  {
    var n := LoweredRuns(env, body, m, steps);
    if IsEnd(ExecBlock(env, FUNCTION, body, m.world, steps).out) {
      RunsAgree(env, LowerFunction(body), Start(m), n, steps);
    }
  }

  // The deferred statements end normally, whatever the limit.
  ghost predicate NeverStuck(env: Meaning, body: Stmts, w: World) {
    forall limit: nat :: !ExecBlock(env, FUNCTION, body, w, limit).out.Stuck?
  }

  // The statements end as r says, when their loops may go on for long enough.
  ghost predicate SourceEnds(env: Meaning, body: Stmts, w: World, r: Result) {
    IsEnd(r.out) && exists limit: nat :: ExecBlock(env, FUNCTION, body, w, limit) == r
  }

  ghost predicate BlocksEnd(env: Meaning, body: Stmts, m: Mem, r: Result) {
    exists n: nat :: EndsAs(Run(env, LowerFunction(body), Start(m), n), r, m)
  }

  ghost predicate BlocksHalt(env: Meaning, body: Stmts, m: Mem) {
    exists n: nat :: Run(env, LowerFunction(body), Start(m), n).Done?
  }

  lemma SourceEndsInBlocks(env: Meaning, body: Stmts, m: Mem, r: Result)
    requires CalleesAgree(env) && m.thrown == 0 && SourceEnds(env, body, m.world, r)
    ensures BlocksEnd(env, body, m, r) && BlocksHalt(env, body, m)
  {
    var limit: nat :| ExecBlock(env, FUNCTION, body, m.world, limit) == r;
    var n := LoweredRuns(env, body, m, limit);
    assert EndsAs(Run(env, LowerFunction(body), Start(m), n), r, m);
  }

  // A function that is never stuck halts if and only if its statements end, and then in the same way.
  lemma LoweringKeepsMeaning(env: Meaning, body: Stmts, m: Mem)
    requires CalleesAgree(env) && m.thrown == 0 && NeverStuck(env, body, m.world)
    ensures BlocksHalt(env, body, m) <==> exists r: Result :: SourceEnds(env, body, m.world, r)
    ensures forall r: Result :: SourceEnds(env, body, m.world, r) ==> BlocksEnd(env, body, m, r)
  {
    forall r: Result | SourceEnds(env, body, m.world, r)
      ensures BlocksEnd(env, body, m, r) && BlocksHalt(env, body, m)
    {
      SourceEndsInBlocks(env, body, m, r);
    }
    if BlocksHalt(env, body, m) {
      var n: nat :| Run(env, LowerFunction(body), Start(m), n).Done?;
      LoweredEndsAsSource(env, body, m, n);
      assert SourceEnds(env, body, m.world, ExecBlock(env, FUNCTION, body, m.world, n));
    }
  }
}
