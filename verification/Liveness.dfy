/** Backward liveness: the data flow fixpoint computes exactly the vregs that some path reads before defining. */
module Liveness {
  import opened Ir

  // The live sets of every block, indexed by its place in the layout.
  datatype LiveSets = LiveSets(liveIn: seq<set<int>>, liveOut: seq<set<int>>)

  ghost predicate LeavesLive(f: Function, b: nat, v: int)
    requires b < |f.blocks|
  {
    exists s :: s in Successors(f.blocks[b].term) && s >= 0 && LiveAt(f, Place(s, 0), v)
  }

  ghost predicate IsLiveness(f: Function, live: LiveSets) {
    && |live.liveIn| == |f.blocks| == |live.liveOut|
    && (forall b: nat, v: int :: b < |f.blocks| ==> (v in live.liveIn[b] <==> LiveAt(f, Place(b, 0), v)))
    && (forall b: nat, v: int :: b < |f.blocks| ==> (v in live.liveOut[b] <==> LeavesLive(f, b, v)))
  }

  // ---------------------------------------------------------------------------------------
  // What a block does to liveness
  // ---------------------------------------------------------------------------------------

  function SetOf(s: seq<int>): set<int> {
    set x | x in s
  }

  function DefsUpTo(block: Block, i: nat): set<int>
    requires i <= |block.insts|
  {
    if i == 0 then {}
    else DefsUpTo(block, i - 1) + (if block.insts[i - 1].dst != NO_VREG then {block.insts[i - 1].dst} else {})
  }

  // The vregs read by the first i instructions before any of them defines them.
  function ExposedUpTo(block: Block, i: nat): set<int>
    requires i <= |block.insts|
  {
    if i == 0 then {}
    else ExposedUpTo(block, i - 1) + (SetOf(block.insts[i - 1].uses) - DefsUpTo(block, i - 1))
  }

  function BlockDefs(block: Block): set<int> {
    DefsUpTo(block, |block.insts|)
  }

  function BlockUses(block: Block): set<int> {
    ExposedUpTo(block, |block.insts|) + (SetOf(TermUses(block.term)) - BlockDefs(block))
  }

  // Live before instruction i, one instruction at a time from the end of the block.
  function LiveBefore(block: Block, i: nat, liveOut: set<int>): set<int>
    requires i <= |block.insts|
    decreases |block.insts| - i
  {
    if i == |block.insts| then SetOf(TermUses(block.term)) + liveOut
    else SetOf(block.insts[i].uses) + (LiveBefore(block, i + 1, liveOut) - {block.insts[i].dst})
  }

  // Forward summary and backward walk agree at every instruction of the block.
  lemma {:induction false} SummaryMeetsWalk(block: Block, i: nat, liveOut: set<int>, v: int)
    requires i <= |block.insts| && v >= 0
    ensures v in LiveBefore(block, 0, liveOut) <==>
            v in ExposedUpTo(block, i) || (v !in DefsUpTo(block, i) && v in LiveBefore(block, i, liveOut))
  {
    if i > 0 {
      SummaryMeetsWalk(block, i - 1, liveOut, v);
    }
  }

  lemma {:induction false} DefsAreVregs(block: Block, i: nat, v: int)
    requires i <= |block.insts|
    ensures v in DefsUpTo(block, i) <==> v != NO_VREG && exists j :: 0 <= j < i && block.insts[j].dst == v
  {
    if i > 0 {
      DefsAreVregs(block, i - 1, v);
    }
  }

  // live_in = use | (live_out - def) is one pass over the block.
  lemma BlockSummary(block: Block, liveOut: set<int>, v: int)
    requires v >= 0
    ensures v in LiveBefore(block, 0, liveOut) <==> v in BlockUses(block) + (liveOut - BlockDefs(block))
  {
    SummaryMeetsWalk(block, |block.insts|, liveOut, v);
  }

  // ---------------------------------------------------------------------------------------
  // The data flow equations
  // ---------------------------------------------------------------------------------------

  predicate BlockClosed(f: Function, liveIn: seq<set<int>>, liveOut: seq<set<int>>, b: nat)
    requires |liveIn| == |f.blocks| == |liveOut| && b < |f.blocks|
  {
    && (forall s :: s in Successors(f.blocks[b].term) && 0 <= s < |f.blocks| ==> liveIn[s] <= liveOut[b])
    && BlockUses(f.blocks[b]) + (liveOut[b] - BlockDefs(f.blocks[b])) <= liveIn[b]
  }

  predicate Closed(f: Function, liveIn: seq<set<int>>, liveOut: seq<set<int>>)
    requires |liveIn| == |f.blocks| == |liveOut|
  {
    forall b: nat :: b < |f.blocks| ==> BlockClosed(f, liveIn, liveOut, b)
  }

  ghost predicate InEquation(block: Block, liveIn: set<int>, liveOut: set<int>) {
    liveIn == BlockUses(block) + (liveOut - BlockDefs(block))
  }

  ghost predicate OutEquation(block: Block, liveIn: seq<set<int>>, liveOut: set<int>) {
    forall v: int :: v in liveOut <==> exists s :: s in Successors(block.term) && 0 <= s < |liveIn| && v in liveIn[s]
  }

  // The equations themselves, not only the inclusions.
  ghost predicate Solves(f: Function, live: LiveSets) {
    && |live.liveIn| == |f.blocks| == |live.liveOut|
    && forall b: nat :: b < |f.blocks| ==>
         && InEquation(f.blocks[b], live.liveIn[b], live.liveOut[b])
         && OutEquation(f.blocks[b], live.liveIn, live.liveOut[b])
  }

  // A set that satisfies the inclusions contains every vreg that a path reads undefined.
  lemma {:induction false} ClosedCoversPath(f: Function, liveIn: seq<set<int>>, liveOut: seq<set<int>>, path: seq<Place>, v: int)
    requires InRange(f) && v >= 0
    requires |liveIn| == |f.blocks| == |liveOut| && Closed(f, liveIn, liveOut)
    requires ReadsUndefined(f, path, v)
    ensures v in LiveBefore(f.blocks[path[0].b], path[0].i, liveOut[path[0].b])
    decreases |path|
  {
    var p := path[0];
    if v !in UsesAt(f, p) {
      PathToNext(f, path, v);
      var rest := path[1..];
      RestReadsUndefined(f, path, v);
      ClosedCoversPath(f, liveIn, liveOut, rest, v);
      if p.i == |f.blocks[p.b].insts| {
        var q := path[1];
        assert q.i == 0 && q.b in Successors(f.blocks[p.b].term);
        BlockSummary(f.blocks[q.b], liveOut[q.b], v);
        assert BlockClosed(f, liveIn, liveOut, q.b) && BlockClosed(f, liveIn, liveOut, p.b);
      }
    }
  }

  lemma RestReadsUndefined(f: Function, path: seq<Place>, v: int)
    requires ReadsUndefined(f, path, v) && |path| > 1
    ensures ReadsUndefined(f, path[1..], v)
  {
    var rest := path[1..];
    forall k | 0 <= k < |rest| - 1
      ensures Follows(f, rest[k], rest[k + 1]) && DefAt(f, rest[k]) != v
    {
      assert rest[k] == path[k + 1] && rest[k + 1] == path[k + 2];
    }
    assert rest[|rest| - 1] == path[|path| - 1];
  }

  // A vreg live before an instruction really is read on some path from there.
  lemma {:induction false} WalkIsLive(f: Function, b: nat, i: nat, liveOut: set<int>, v: int)
    requires b < |f.blocks| && i <= |f.blocks[b].insts|
    requires forall w :: w in liveOut ==> w >= 0 && LeavesLive(f, b, w)
    requires v >= 0 && v in LiveBefore(f.blocks[b], i, liveOut)
    ensures LiveAt(f, Place(b, i), v)
    decreases |f.blocks[b].insts| - i
  {
    var p := Place(b, i);
    LiveAtStep(f, p, v);
    if v !in UsesAt(f, p) {
      if i < |f.blocks[b].insts| {
        WalkIsLive(f, b, i + 1, liveOut, v);
        assert Follows(f, p, Place(b, i + 1));
      } else {
        var s :| s in Successors(f.blocks[b].term) && s >= 0 && LiveAt(f, Place(s, 0), v);
        assert Follows(f, p, Place(s, 0));
      }
    }
  }

  // The converse: live at a place means live in the walk, for a set that has all that leaves the block live.
  lemma {:induction false} LiveIsWalk(f: Function, b: nat, i: nat, liveOut: set<int>, v: int)
    requires b < |f.blocks| && i <= |f.blocks[b].insts| && LiveAt(f, Place(b, i), v)
    requires LeavesLive(f, b, v) ==> v in liveOut
    ensures v in LiveBefore(f.blocks[b], i, liveOut)
    decreases |f.blocks[b].insts| - i
  {
    var p := Place(b, i);
    LiveAtStep(f, p, v);
    if v !in UsesAt(f, p) {
      var q :| Follows(f, p, q) && LiveAt(f, q, v);
      if i < |f.blocks[b].insts| {
        LiveIsWalk(f, b, i + 1, liveOut, v);
      } else {
        assert q == Place(q.b, 0) && LeavesLive(f, b, v);
      }
    }
  }

  // The path definition is the least solution: it solves the equations, and every solution contains it.
  lemma LivenessIsLeastSolution(f: Function, live: LiveSets)
    requires InRange(f) && IsLiveness(f, live)
    ensures Solves(f, live)
    ensures forall other: LiveSets, b: nat, v: int :: Solves(f, other) && b < |f.blocks| && v in live.liveIn[b] ==>
      v in other.liveIn[b]
  {
    forall b: nat | b < |f.blocks|
      ensures InEquation(f.blocks[b], live.liveIn[b], live.liveOut[b])
      ensures OutEquation(f.blocks[b], live.liveIn, live.liveOut[b])
    {
      ExactInEquation(f, live, b);
      ExactOutEquation(f, live, b);
    }
    forall other: LiveSets, b: nat, v: int | Solves(f, other) && b < |f.blocks| && v in live.liveIn[b]
      ensures v in other.liveIn[b]
    {
      SolutionIsClosed(f, other);
      ClosedContainsLive(f, other.liveIn, other.liveOut, b, v);
    }
  }

  lemma ExactOutEquation(f: Function, live: LiveSets, b: nat)
    requires InRange(f) && IsLiveness(f, live) && b < |f.blocks|
    ensures OutEquation(f.blocks[b], live.liveIn, live.liveOut[b])
  {
    var block := f.blocks[b];
    forall v: int
      ensures v in live.liveOut[b] <==> exists s :: s in Successors(block.term) && 0 <= s < |live.liveIn| && v in live.liveIn[s]
    {
      if v in live.liveOut[b] {
        assert LeavesLive(f, b, v);
        var s :| s in Successors(block.term) && s >= 0 && LiveAt(f, Place(s, 0), v);
        LiveIsAPlace(f, Place(s, 0), v);
        assert v in live.liveIn[s];
      }
      if s :| s in Successors(block.term) && 0 <= s < |live.liveIn| && v in live.liveIn[s] {
        assert LiveAt(f, Place(s, 0), v);
        assert LeavesLive(f, b, v);
      }
    }
  }

  lemma ExactInEquation(f: Function, live: LiveSets, b: nat)
    requires InRange(f) && IsLiveness(f, live) && b < |f.blocks|
    ensures InEquation(f.blocks[b], live.liveIn[b], live.liveOut[b])
  {
    var block := f.blocks[b];
    var walk := BlockUses(block) + (live.liveOut[b] - BlockDefs(block));
    forall v | v in live.liveIn[b]
      ensures v in walk
    {
      LiveIsInRange(f, Place(b, 0), v);
      LiveIsWalk(f, b, 0, live.liveOut[b], v);
      BlockSummary(block, live.liveOut[b], v);
    }
    LiveOutInRange(f, live, b);
    forall v | v in walk
      ensures v in live.liveIn[b]
    {
      BlockUsesInRange(f, b, |block.insts|);
      BlockSummary(block, live.liveOut[b], v);
      WalkIsLive(f, b, 0, live.liveOut[b], v);
    }
  }

  lemma LiveOutInRange(f: Function, live: LiveSets, b: nat)
    requires InRange(f) && IsLiveness(f, live) && b < |f.blocks|
    ensures forall v :: v in live.liveOut[b] ==> 0 <= v < f.VregCount()
  {
    forall v | v in live.liveOut[b]
      ensures 0 <= v < f.VregCount()
    {
      assert LeavesLive(f, b, v);
      var s :| s in Successors(f.blocks[b].term) && s >= 0 && LiveAt(f, Place(s, 0), v);
      LiveIsInRange(f, Place(s, 0), v);
    }
  }

  lemma {:induction false} BlockUsesInRange(f: Function, b: nat, i: nat)
    requires InRange(f) && b < |f.blocks| && i <= |f.blocks[b].insts|
    ensures forall v :: v in ExposedUpTo(f.blocks[b], i) ==> 0 <= v < f.VregCount()
    ensures forall v :: v in DefsUpTo(f.blocks[b], i) ==> 0 <= v < f.VregCount()
    ensures forall v :: v in TermUses(f.blocks[b].term) ==> 0 <= v < f.VregCount()
  {
    if i > 0 {
      BlockUsesInRange(f, b, i - 1);
    }
  }

  lemma SolutionIsClosed(f: Function, other: LiveSets)
    requires Solves(f, other)
    ensures Closed(f, other.liveIn, other.liveOut)
  {
    forall b: nat | b < |f.blocks|
      ensures BlockClosed(f, other.liveIn, other.liveOut, b)
    {
      assert InEquation(f.blocks[b], other.liveIn[b], other.liveOut[b]);
      assert OutEquation(f.blocks[b], other.liveIn, other.liveOut[b]);
      forall s, v | s in Successors(f.blocks[b].term) && 0 <= s < |f.blocks| && v in other.liveIn[s]
        ensures v in other.liveOut[b]
      {
      }
    }
  }

  lemma ClosedContainsLive(f: Function, liveIn: seq<set<int>>, liveOut: seq<set<int>>, b: nat, v: int)
    requires InRange(f) && |liveIn| == |f.blocks| == |liveOut| && Closed(f, liveIn, liveOut)
    requires b < |f.blocks| && LiveAt(f, Place(b, 0), v)
    ensures v in liveIn[b]
  {
    LiveIsInRange(f, Place(b, 0), v);
    var path :| ReadsUndefined(f, path, v) && path[0] == Place(b, 0);
    ClosedCoversPath(f, liveIn, liveOut, path, v);
    BlockSummary(f.blocks[b], liveOut[b], v);
    assert BlockClosed(f, liveIn, liveOut, b);
  }

  // ---------------------------------------------------------------------------------------
  // The fixpoint
  // ---------------------------------------------------------------------------------------

  // How many vregs the sets still miss; every change of the fixpoint lowers it.
  ghost function Room(sets: seq<set<int>>, n: nat): int {
    if |sets| == 0 then 0 else n - |sets[0]| + Room(sets[1..], n)
  }

  lemma SubsetSize(s: set<int>, n: nat)
    requires forall v :: v in s ==> 0 <= v < n
    ensures |s| <= n
  {
    if n == 0 {
      assert forall v :: v !in s;
      assert s == {};
    } else {
      SubsetSize(s - {n - 1}, n - 1);
    }
  }

  ghost predicate Bounded(sets: seq<set<int>>, n: nat) {
    forall b, v :: 0 <= b < |sets| && v in sets[b] ==> 0 <= v < n
  }

  lemma {:induction false} RoomIsNatural(sets: seq<set<int>>, n: nat)
    requires Bounded(sets, n)
    ensures Room(sets, n) >= 0
  {
    if |sets| > 0 {
      assert forall v :: v in sets[0] ==> 0 <= v < n;
      SubsetSize(sets[0], n);
      assert Bounded(sets[1..], n);
      RoomIsNatural(sets[1..], n);
    }
  }

  lemma ProperSubsetSize(s: set<int>, t: set<int>)
    requires s < t
    ensures |s| < |t|
  {
    assert t == s + (t - s);
    assert t - s != {};
  }

  lemma {:induction false} RoomShrinks(sets: seq<set<int>>, n: nat, b: nat, bigger: set<int>)
    requires b < |sets| && sets[b] < bigger
    ensures Room(sets[b := bigger], n) < Room(sets, n)
  {
    if b == 0 {
      ProperSubsetSize(sets[0], bigger);
      assert sets[0 := bigger][1..] == sets[1..];
    } else {
      assert sets[b := bigger][1..] == sets[1..][b - 1 := bigger];
      RoomShrinks(sets[1..], n, b - 1, bigger);
    }
  }

  // Everything found so far is really live.
  ghost predicate Sound(f: Function, liveIn: seq<set<int>>, liveOut: seq<set<int>>) {
    && |liveIn| == |f.blocks| == |liveOut|
    && (forall b: nat, v :: b < |f.blocks| && v in liveIn[b] ==> 0 <= v < f.VregCount() && LiveAt(f, Place(b, 0), v))
    && (forall b: nat, v :: b < |f.blocks| && v in liveOut[b] ==> 0 <= v < f.VregCount() && LeavesLive(f, b, v))
  }

  function Gather(liveIn: seq<set<int>>, successors: seq<int>): set<int> {
    if |successors| == 0 then {}
    else
      (if 0 <= successors[|successors| - 1] < |liveIn| then liveIn[successors[|successors| - 1]] else {})
      + Gather(liveIn, successors[..|successors| - 1])
  }

  lemma {:induction false} GatherIsUnion(liveIn: seq<set<int>>, successors: seq<int>, v: int)
    ensures v in Gather(liveIn, successors) <==> exists s :: s in successors && 0 <= s < |liveIn| && v in liveIn[s]
  {
    if |successors| > 0 {
      var last := successors[|successors| - 1];
      GatherIsUnion(liveIn, successors[..|successors| - 1], v);
      assert successors == successors[..|successors| - 1] + [last];
      if s :| s in successors && 0 <= s < |liveIn| && v in liveIn[s] {
        assert s == last || s in successors[..|successors| - 1];
      }
    }
  }

  lemma OutStepIsSound(f: Function, liveIn: seq<set<int>>, liveOut: seq<set<int>>, b: nat)
    requires InRange(f) && Sound(f, liveIn, liveOut) && b < |f.blocks|
    ensures Sound(f, liveIn, liveOut[b := liveOut[b] + Gather(liveIn, Successors(f.blocks[b].term))])
  {
    forall v | v in Gather(liveIn, Successors(f.blocks[b].term))
      ensures 0 <= v < f.VregCount() && LeavesLive(f, b, v)
    {
      GatherIsUnion(liveIn, Successors(f.blocks[b].term), v);
      var s :| s in Successors(f.blocks[b].term) && 0 <= s < |liveIn| && v in liveIn[s];
      assert LiveAt(f, Place(s, 0), v);
    }
  }

  lemma InStepIsSound(f: Function, liveIn: seq<set<int>>, liveOut: seq<set<int>>, b: nat)
    requires InRange(f) && Sound(f, liveIn, liveOut) && b < |f.blocks|
    ensures Sound(f, liveIn[b := liveIn[b] + (BlockUses(f.blocks[b]) + (liveOut[b] - BlockDefs(f.blocks[b])))], liveOut)
  {
    forall v | v in BlockUses(f.blocks[b]) + (liveOut[b] - BlockDefs(f.blocks[b]))
      ensures 0 <= v < f.VregCount() && LiveAt(f, Place(b, 0), v)
    {
      BlockUsesInRange(f, b, |f.blocks[b].insts|);
      BlockSummary(f.blocks[b], liveOut[b], v);
      WalkIsLive(f, b, 0, liveOut[b], v);
    }
  }

  // Sound and closed is exact.
  lemma FixpointIsLiveness(f: Function, liveIn: seq<set<int>>, liveOut: seq<set<int>>)
    requires InRange(f) && Sound(f, liveIn, liveOut) && Closed(f, liveIn, liveOut)
    ensures IsLiveness(f, LiveSets(liveIn, liveOut))
  {
    forall b: nat, v: int | b < |f.blocks| && LiveAt(f, Place(b, 0), v)
      ensures v in liveIn[b]
    {
      ClosedContainsLive(f, liveIn, liveOut, b, v);
    }
    forall b: nat, v: int | b < |f.blocks| && LeavesLive(f, b, v)
      ensures v in liveOut[b]
    {
      var s :| s in Successors(f.blocks[b].term) && s >= 0 && LiveAt(f, Place(s, 0), v);
      LiveIsAPlace(f, Place(s, 0), v);
      ClosedContainsLive(f, liveIn, liveOut, s, v);
      assert BlockClosed(f, liveIn, liveOut, b);
    }
  }

  lemma GatherOneMore(liveIn: seq<set<int>>, successors: seq<int>, s: nat)
    requires s < |successors| && 0 <= successors[s] < |liveIn|
    ensures Gather(liveIn, successors[..s + 1]) == Gather(liveIn, successors[..s]) + liveIn[successors[s]]
  {
    assert successors[..s + 1][..s] == successors[..s];
  }

  lemma SetOfOneMore(s: seq<int>, i: nat)
    requires i < |s|
    ensures SetOf(s[..i + 1]) == SetOf(s[..i]) + {s[i]}
  {
    assert s[..i + 1] == s[..i] + [s[i]];
  }

  // One block of a pass: what is found stays sound, the block is closed when nothing changed, and a change uses up room.
  lemma PassStep(f: Function, liveIn: seq<set<int>>, liveOut: seq<set<int>>, liveIn': seq<set<int>>, liveOut': seq<set<int>>, b: nat)
    requires InRange(f) && Sound(f, liveIn, liveOut) && b < |f.blocks|
    requires liveOut' == liveOut[b := liveOut[b] + Gather(liveIn, Successors(f.blocks[b].term))]
    requires liveIn' == liveIn[b := liveIn[b] + (BlockUses(f.blocks[b]) + (liveOut'[b] - BlockDefs(f.blocks[b])))]
    ensures Sound(f, liveIn', liveOut')
    ensures liveIn' == liveIn && liveOut' == liveOut ==> BlockClosed(f, liveIn, liveOut, b)
    ensures var n := f.VregCount();
      Room(liveIn', n) + Room(liveOut', n) + (if liveIn' == liveIn && liveOut' == liveOut then 0 else 1)
      <= Room(liveIn, n) + Room(liveOut, n)
  {
    OutStepIsSound(f, liveIn, liveOut, b);
    InStepIsSound(f, liveIn, liveOut', b);
    UpdateRoom(liveOut, liveOut', f.VregCount(), b);
    UpdateRoom(liveIn, liveIn', f.VregCount(), b);
    if liveIn' == liveIn && liveOut' == liveOut {
      UnchangedIsClosed(f, liveIn, liveOut, b);
    }
  }

  lemma UpdateRoom(sets: seq<set<int>>, sets': seq<set<int>>, n: nat, b: nat)
    requires |sets'| == |sets| && b < |sets| && sets' == sets[b := sets'[b]] && sets[b] <= sets'[b]
    ensures sets' == sets || Room(sets', n) < Room(sets, n)
  {
    if sets[b] != sets'[b] {
      RoomShrinks(sets, n, b, sets'[b]);
    }
  }

  lemma UnchangedIsClosed(f: Function, liveIn: seq<set<int>>, liveOut: seq<set<int>>, b: nat)
    requires |liveIn| == |f.blocks| == |liveOut| && b < |f.blocks|
    requires liveOut == liveOut[b := liveOut[b] + Gather(liveIn, Successors(f.blocks[b].term))]
    requires liveIn == liveIn[b := liveIn[b] + (BlockUses(f.blocks[b]) + (liveOut[b] - BlockDefs(f.blocks[b])))]
    ensures BlockClosed(f, liveIn, liveOut, b)
  {
    var gathered := Gather(liveIn, Successors(f.blocks[b].term));
    assert liveOut[b] == liveOut[b] + gathered;
    assert liveIn[b] == liveIn[b] + (BlockUses(f.blocks[b]) + (liveOut[b] - BlockDefs(f.blocks[b])));
    forall s, v | s in Successors(f.blocks[b].term) && 0 <= s < |f.blocks| && v in liveIn[s]
      ensures v in liveOut[b]
    {
      GatherIsUnion(liveIn, Successors(f.blocks[b].term), v);
      assert v in gathered;
    }
  }

  lemma RoomsAreNatural(f: Function, liveIn: seq<set<int>>, liveOut: seq<set<int>>)
    requires Sound(f, liveIn, liveOut)
    ensures Room(liveIn, f.VregCount()) >= 0 && Room(liveOut, f.VregCount()) >= 0
  {
    assert Bounded(liveIn, f.VregCount()) && Bounded(liveOut, f.VregCount());
    RoomIsNatural(liveIn, f.VregCount());
    RoomIsNatural(liveOut, f.VregCount());
  }
}
