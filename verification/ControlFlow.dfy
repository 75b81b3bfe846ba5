/** The blocks that lowering makes, and running them one instruction or terminator at a time. */
module ControlFlow {
  import opened Structured

  // thrownError is the global that holds the error being thrown; Park and Unpark use a slot of the frame.
  datatype Instr =
    | CallInstr(call: CallSite)
    | LoadErrorResult(call: CallSite)
    | Act(id: int)
    | EvalError(id: int)
    | StoreResult(id: int)
    | StoreThrown
    | ClearThrown
    | Park(slot: nat)
    | Unpark(slot: nat)
    | CatchError(variable: int)

  datatype Test = FlagIsSet | ThrownIsSet | ErrorIsSet | Test(id: int)

  datatype Term = NoTerm | Jmp(target: nat) | Br(test: Test, target: nat, elseTarget: nat) | Ret(threw: bool)

  datatype Block = Block(instrs: seq<Instr>, term: Term)

  // flag and error are the vregs of the last call and of the error being looked at.
  datatype Mem = Mem(world: World, thrown: nat, flag: nat, error: nat, result: Value, slots: map<nat, nat>)

  datatype Place = Place(block: nat, index: nat)

  datatype State = At(place: Place, mem: Mem) | Done(threw: bool, mem: Mem) | Lost

  function Slot(slots: map<nat, nat>, i: nat): nat {
    if i in slots then slots[i] else 0
  }

  function Perform(env: Meaning, i: Instr, m: Mem): Mem {
    match i
    case CallInstr(call) => var e := env.call(call, m.world); m.(world := e.world, flag := e.flag, thrown := e.thrown)
    case LoadErrorResult(call) => m.(error := env.errorOf(call, m.world))
    case Act(id) => m.(world := env.act(id, m.world))
    case EvalError(id) => m.(error := env.error(id, m.world))
    case StoreResult(id) => m.(result := env.value(id, m.world))
    case StoreThrown => m.(thrown := m.error)
    case ClearThrown => m.(thrown := 0)
    case Park(slot) => m.(slots := m.slots[slot := m.thrown])
    case Unpark(slot) => m.(thrown := Slot(m.slots, slot))
    case CatchError(variable) => m.(world := env.bind(variable, m.thrown, m.world), thrown := 0)
  }

  predicate Holds(env: Meaning, t: Test, m: Mem) {
    match t
    case FlagIsSet => m.flag != 0
    case ThrownIsSet => m.thrown != 0
    case ErrorIsSet => m.error != 0
    case Test(id) => env.test(id, m.world)
  }

  function Follow(env: Meaning, t: Term, m: Mem): State {
    match t
    case NoTerm => Lost
    case Jmp(target) => At(Place(target, 0), m)
    case Br(test, target, elseTarget) => At(Place(if Holds(env, test, m) then target else elseTarget, 0), m)
    case Ret(threw) => Done(threw, m)
  }

  function Step(env: Meaning, g: seq<Block>, s: State): State {
    if !s.At? then s
    else if s.place.block >= |g| then Lost
    else
      var b := g[s.place.block];
      if s.place.index < |b.instrs| then At(Place(s.place.block, s.place.index + 1), Perform(env, b.instrs[s.place.index], s.mem))
      else Follow(env, b.term, s.mem)
  }

  function Run(env: Meaning, g: seq<Block>, s: State, steps: nat): State
    decreases steps
  {
    if steps == 0 then s else Run(env, g, Step(env, g, s), steps - 1)
  }

  // Still running after so many steps
  predicate Lives(env: Meaning, g: seq<Block>, s: State, steps: nat) {
    Run(env, g, s, steps).At?
  }

  lemma {:induction false} RunAdd(env: Meaning, g: seq<Block>, s: State, a: nat, b: nat)
    ensures Run(env, g, s, a + b) == Run(env, g, Run(env, g, s, a), b)
    decreases a
  {
    if a > 0 {
      RunAdd(env, g, Step(env, g, s), a - 1, b);
    }
  }

  lemma {:induction false} RunEnded(env: Meaning, g: seq<Block>, s: State, steps: nat)
    requires !s.At?
    ensures Run(env, g, s, steps) == s
    decreases steps
  {
    if steps > 0 {
      RunEnded(env, g, s, steps - 1);
    }
  }

  lemma LivesLess(env: Meaning, g: seq<Block>, s: State, steps: nat, fewer: nat)
    requires Lives(env, g, s, steps) && fewer <= steps
    ensures Lives(env, g, s, fewer)
  {
    RunAdd(env, g, s, fewer, steps - fewer);
    if !Run(env, g, s, fewer).At? {
      RunEnded(env, g, Run(env, g, s, fewer), steps - fewer);
    }
  }

  // A run lives as long as what it comes to, and the steps up to there longer.
  lemma LivesBefore(env: Meaning, g: seq<Block>, s: State, n: nat, steps: nat)
    requires Lives(env, g, Run(env, g, s, n), steps)
    ensures Lives(env, g, s, n + steps) && Lives(env, g, s, steps)
  {
    RunAdd(env, g, s, n, steps);
    LivesLess(env, g, s, n + steps, steps);
  }

  // ---------------------------------------------------------------------------------------
  // Making blocks
  // ---------------------------------------------------------------------------------------

  // The blocks made so far, the one that instructions are added to, and the number of frame slots taken
  datatype Code = Code(blocks: seq<Block>, cur: nat, slots: nat) {
    // Instructions can be added: the current block has no terminator.
    predicate Open() {
      cur < |blocks| && blocks[cur].term.NoTerm?
    }

    function Here(): Place
      requires Open()
    {
      Place(cur, |blocks[cur].instrs|)
    }
  }

  function Create(c: Code): Code {
    c.(blocks := c.blocks + [Block([], NoTerm)])
  }

  function SetBlock(c: Code, b: nat): Code {
    c.(cur := b)
  }

  function Emit(c: Code, i: Instr): Code {
    if c.Open() then c.(blocks := c.blocks[c.cur := c.blocks[c.cur].(instrs := c.blocks[c.cur].instrs + [i])]) else c
  }

  // A block keeps the first terminator it gets.
  function Terminate(c: Code, t: Term): Code {
    if c.Open() then c.(blocks := c.blocks[c.cur := c.blocks[c.cur].(term := t)]) else c
  }

  function StartUnreachable(c: Code): Code {
    SetBlock(Create(c), |c.blocks|)
  }

  // Instructions are only added, and a terminated block stays as it is.
  predicate BlockGrew(a: Block, b: Block) {
    a.instrs <= b.instrs && (a.term.NoTerm? || a == b)
  }

  predicate Grew(a: seq<Block>, b: seq<Block>) {
    |a| <= |b| && forall i :: 0 <= i < |a| ==> BlockGrew(a[i], b[i])
  }

  lemma GrewTrans(a: seq<Block>, b: seq<Block>, c: seq<Block>)
    requires Grew(a, b) && Grew(b, c)
    ensures Grew(a, c)
  {
    forall i | 0 <= i < |a|
      ensures BlockGrew(a[i], c[i])
    {
      assert BlockGrew(a[i], b[i]) && BlockGrew(b[i], c[i]);
    }
  }

  // From a to b, no block of a other than its current one changed, and b is in that one or in a new one.
  predicate Extends(a: Code, b: Code) {
    && Grew(a.blocks, b.blocks) && a.slots <= b.slots
    && (forall i :: 0 <= i < |a.blocks| && i != a.cur ==> a.blocks[i] == b.blocks[i])
    && (b.cur == a.cur || b.cur >= |a.blocks|) && b.cur < |b.blocks|
  }

  lemma ExtendsTrans(a: Code, b: Code, c: Code)
    requires Extends(a, b) && Extends(b, c)
    ensures Extends(a, c)
  {
    GrewTrans(a.blocks, b.blocks, c.blocks);
  }

  lemma ExtendsEmit(c: Code, i: Instr)
    requires c.Open()
    ensures Extends(c, Emit(c, i)) && Emit(c, i).Open() && Emit(c, i).Here() == Place(c.cur, c.Here().index + 1)
  {
  }

  lemma ExtendsTerminate(c: Code, t: Term)
    requires c.cur < |c.blocks|
    ensures Extends(c, Terminate(c, t))
  {
  }

  lemma ExtendsCreate(c: Code)
    requires c.cur < |c.blocks|
    ensures Extends(c, Create(c)) && |Create(c).blocks| == |c.blocks| + 1
    ensures Create(c).blocks[|c.blocks|] == Block([], NoTerm)
    ensures c.Open() ==> Create(c).Open() && Create(c).Here() == c.Here()
  {
  }

  // Going on in a block that is new since a
  lemma ExtendsSetBlock(a: Code, b: Code, block: nat)
    requires Extends(a, b) && |a.blocks| <= block < |b.blocks|
    ensures Extends(a, SetBlock(b, block))
  {
  }

  lemma ExtendsUnreachable(a: Code, b: Code)
    requires Extends(a, b)
    ensures Extends(a, StartUnreachable(b)) && StartUnreachable(b).Open() && Grew(b.blocks, StartUnreachable(b).blocks)
  {
    ExtendsCreate(b);
    ExtendsTrans(a, b, Create(b));
    ExtendsSetBlock(a, Create(b), |b.blocks|);
  }

  // What was emitted is what runs in the finished blocks.
  lemma EmittedRuns(env: Meaning, g: seq<Block>, c: Code, i: Instr, m: Mem)
    requires c.Open() && Grew(Emit(c, i).blocks, g)
    ensures Run(env, g, At(c.Here(), m), 1) == At(Emit(c, i).Here(), Perform(env, i, m))
  {
    var e := Emit(c, i);
    assert BlockGrew(e.blocks[c.cur], g[c.cur]);
    assert e.blocks[c.cur].instrs[c.Here().index] == i;
    assert Run(env, g, At(c.Here(), m), 1) == Step(env, g, At(c.Here(), m));
  }

  lemma TerminatorRuns(env: Meaning, g: seq<Block>, c: Code, t: Term, m: Mem)
    requires c.Open() && !t.NoTerm? && Grew(Terminate(c, t).blocks, g)
    ensures Run(env, g, At(c.Here(), m), 1) == Follow(env, t, m)
  {
    var e := Terminate(c, t);
    assert BlockGrew(e.blocks[c.cur], g[c.cur]);
    assert Run(env, g, At(c.Here(), m), 1) == Step(env, g, At(c.Here(), m));
  }
}
