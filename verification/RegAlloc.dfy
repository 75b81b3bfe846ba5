/** Register allocation of a function: positions, one interval per vreg, calls that intervals cross, and the scan. */
module RegAlloc {
  import opened Ir
  import opened Liveness
  import Bitsets
  import LivenessWords
  import opened LinearScan

  const NEVER := 0x7FFF_FFFF

  // ---------------------------------------------------------------------------------------
  // Positions. The parameters are defined at 0, the code starts at 2, and each step is 2.
  // ---------------------------------------------------------------------------------------

  function BlockStart(f: Function, b: nat): nat
    requires b <= |f.blocks|
  {
    if b == 0 then 2 else BlockStart(f, b - 1) + 2 * |f.blocks[b - 1].insts| + 2
  }

  function Position(f: Function, p: Place): nat
    requires p.b < |f.blocks|
  {
    BlockStart(f, p.b) + 2 * p.i
  }

  function BlockEnd(f: Function, b: nat): nat
    requires b < |f.blocks|
  {
    BlockStart(f, b) + 2 * |f.blocks[b].insts|
  }

  lemma {:induction false} BlocksInOrder(f: Function, b: nat, c: nat)
    requires b < c <= |f.blocks|
    ensures BlockEnd(f, b) + 2 <= BlockStart(f, c)
  {
    if b < c - 1 {
      BlocksInOrder(f, b, c - 1);
    }
  }

  lemma {:induction false} StartsAtTwo(f: Function, b: nat)
    requires b <= |f.blocks|
    ensures BlockStart(f, b) >= 2
  {
    if b > 0 { StartsAtTwo(f, b - 1); }
  }

  // Positions follow the layout, so no two places share one.
  lemma PositionsFollowLayout(f: Function, p: Place, q: Place)
    requires IsPlace(f, p) && IsPlace(f, q)
    ensures Position(f, p) < Position(f, q) <==> p.b < q.b || (p.b == q.b && p.i < q.i)
    ensures Position(f, p) == Position(f, q) <==> p == q
  {
    if p.b < q.b {
      BlocksInOrder(f, p.b, q.b);
    } else if q.b < p.b {
      BlocksInOrder(f, q.b, p.b);
    }
  }

  predicate CallAt(f: Function, p: Place) {
    p.b < |f.blocks| && p.i < |f.blocks[p.b].insts| && IsCallLike(f.blocks[p.b].insts[p.i])
  }

  // instPositions holds the position of every instruction, by block.
  datatype Numbering = Numbering(blockStart: seq<int>, blockEnd: seq<int>, instPositions: seq<seq<int>>, callPositions: seq<int>)

  ghost predicate BlockNumbered(f: Function, n: Numbering, b: nat)
    requires b < |f.blocks| && b < |n.blockStart| && b < |n.blockEnd| && b < |n.instPositions|
  {
    && n.blockStart[b] == BlockStart(f, b)
    && n.blockEnd[b] == BlockEnd(f, b)
    && |n.instPositions[b]| == |f.blocks[b].insts|
    && forall i :: 0 <= i < |f.blocks[b].insts| ==> n.instPositions[b][i] == Position(f, Place(b, i))
  }

  ghost predicate IsNumbering(f: Function, n: Numbering) {
    && |n.blockStart| == |n.blockEnd| == |n.instPositions| == |f.blocks|
    && (forall b: nat :: b < |f.blocks| ==> BlockNumbered(f, n, b))
    && (forall c: int :: c in n.callPositions <==> exists p :: CallAt(f, p) && Position(f, p) == c)
  }

  ghost predicate NumberedUpTo(f: Function, n: Numbering, b: nat) {
    && b <= |f.blocks|
    && |n.blockStart| == |n.blockEnd| == |n.instPositions| == b
    && (forall k: nat :: k < b ==> BlockNumbered(f, n, k))
    && (forall c: int :: c in n.callPositions <==> exists p :: CallAt(f, p) && p.b < b && Position(f, p) == c)
  }

  method Number(f: Function) returns (n: Numbering)
    ensures IsNumbering(f, n)
  {
    n := Numbering([], [], [], []);
    var pos := 2;
    for b := 0 to |f.blocks|
      invariant pos == BlockStart(f, b)
      invariant NumberedUpTo(f, n, b)
    {
      var positions, calls := NumberBlock(f, b, pos);
      ghost var before := n;
      n := Numbering(n.blockStart + [pos], n.blockEnd + [pos + 2 * |positions|], n.instPositions + [positions], n.callPositions + calls);
      OneMoreBlockNumbered(f, before, b, positions, calls, n);
      pos := pos + 2 * |positions| + 2;
    }
  }

  // The positions of the instructions of a block, and of the calls among them.
  method NumberBlock(f: Function, b: nat, start: int) returns (positions: seq<int>, calls: seq<int>)
    requires b < |f.blocks| && start == BlockStart(f, b)
    ensures |positions| == |f.blocks[b].insts|
    ensures forall i :: 0 <= i < |positions| ==> positions[i] == Position(f, Place(b, i))
    ensures forall c: int :: c in calls <==> exists i: nat :: CallAt(f, Place(b, i)) && Position(f, Place(b, i)) == c
  {
    positions, calls := [], [];
    var pos := start;
    for i := 0 to |f.blocks[b].insts|
      invariant pos == Position(f, Place(b, i)) && |positions| == i
      invariant forall j :: 0 <= j < i ==> positions[j] == Position(f, Place(b, j))
      invariant forall c: int :: c in calls <==> exists j: nat :: j < i && CallAt(f, Place(b, j)) && Position(f, Place(b, j)) == c
    {
      positions := positions + [pos];
      if IsCallLike(f.blocks[b].insts[i]) {
        assert CallAt(f, Place(b, i));
        calls := calls + [pos];
      }
      pos := pos + 2;
    }
  }

  lemma OneMoreBlockNumbered(f: Function, n: Numbering, b: nat, positions: seq<int>, calls: seq<int>, m: Numbering)
    requires b < |f.blocks| && NumberedUpTo(f, n, b)
    requires |positions| == |f.blocks[b].insts|
    requires forall i :: 0 <= i < |positions| ==> positions[i] == Position(f, Place(b, i))
    requires forall c: int :: c in calls <==> exists i: nat :: CallAt(f, Place(b, i)) && Position(f, Place(b, i)) == c
    requires m == Numbering(n.blockStart + [BlockStart(f, b)], n.blockEnd + [BlockStart(f, b) + 2 * |positions|],
                            n.instPositions + [positions], n.callPositions + calls)
    ensures NumberedUpTo(f, m, b + 1)
  {
    forall k: nat | k < b + 1
      ensures BlockNumbered(f, m, k)
    {
      if k < b {
        assert BlockNumbered(f, n, k);
      }
    }
    forall c: int
      ensures c in m.callPositions <==> exists p :: CallAt(f, p) && p.b < b + 1 && Position(f, p) == c
    {
      if c in calls {
        var i: nat :| CallAt(f, Place(b, i)) && Position(f, Place(b, i)) == c;
      }
      if p :| CallAt(f, p) && p.b < b + 1 && Position(f, p) == c {
        if p.b == b {
          assert p == Place(b, p.i);
        }
      }
    }
  }

  // ---------------------------------------------------------------------------------------
  // Intervals
  // ---------------------------------------------------------------------------------------

  // interval_extend
  function Extend(interval: Interval, pos: int): Interval {
    var wider := if pos < interval.start then interval.(start := pos) else interval;
    if pos > wider.end then wider.(end := pos) else wider
  }

  // The interval is the smallest one that contains the positions, and is empty without any.
  ghost predicate Hull(interval: Interval, touched: set<int>) {
    if touched == {} then interval.start == NEVER && interval.end == -1
    else
      && interval.start in touched && interval.end in touched
      && forall p :: p in touched ==> interval.Contains(p)
  }

  lemma ExtendIsHull(interval: Interval, touched: set<int>, pos: int)
    requires Hull(interval, touched) && 0 <= pos < NEVER
    ensures Hull(Extend(interval, pos), touched + {pos})
    ensures Extend(interval, pos).regClass == interval.regClass && Extend(interval, pos).crossesCall == interval.crossesCall
  {
  }

  function At(condition: bool, pos: int): set<int> {
    if condition then {pos} else {}
  }

  function InstTouches(f: Function, b: nat, i: nat, v: int): set<int>
    requires b < |f.blocks| && i <= |f.blocks[b].insts|
  {
    if i == 0 then {}
    else
      var inst := f.blocks[b].insts[i - 1];
      InstTouches(f, b, i - 1, v) + At(v in inst.uses || v == inst.dst, Position(f, Place(b, i - 1)))
  }

  function LiveTouches(f: Function, live: LiveSets, b: nat, v: int): set<int>
    requires b < |f.blocks| && |live.liveIn| == |f.blocks| == |live.liveOut|
  {
    At(v in live.liveIn[b], BlockStart(f, b)) + At(v in live.liveOut[b], BlockEnd(f, b))
  }

  function BlockTouches(f: Function, live: LiveSets, b: nat, v: int): set<int>
    requires b < |f.blocks| && |live.liveIn| == |f.blocks| == |live.liveOut|
  {
    LiveTouches(f, live, b, v)
    + InstTouches(f, b, |f.blocks[b].insts|, v)
    + At(v in TermUses(f.blocks[b].term), BlockEnd(f, b))
  }

  // Every position at which the first 'blocks' blocks need the vreg.
  function Touches(f: Function, live: LiveSets, blocks: nat, v: int): set<int>
    requires blocks <= |f.blocks| && |live.liveIn| == |f.blocks| == |live.liveOut|
  {
    if blocks == 0 then At(v in f.params, 0)
    else Touches(f, live, blocks - 1, v) + BlockTouches(f, live, blocks - 1, v)
  }

  // The positions fit in the machine's int.
  predicate PositionsFit(f: Function) {
    BlockStart(f, |f.blocks|) < NEVER
  }

  lemma PositionFits(f: Function, p: Place)
    requires PositionsFit(f) && IsPlace(f, p)
    ensures 2 <= Position(f, p) < NEVER
  {
    BlocksInOrder(f, p.b, |f.blocks|);
    StartsAtTwo(f, p.b);
  }

  ghost predicate Hulls(intervals: seq<Interval>, touched: seq<set<int>>) {
    |touched| == |intervals| && forall v: nat :: v < |intervals| ==> Hull(intervals[v], touched[v])
  }

  // The class of a vreg and the flag of step 3 are not changed by extending.
  ghost predicate SameKind(a: seq<Interval>, b: seq<Interval>) {
    |a| == |b| && forall v: nat :: v < |a| ==> a[v].regClass == b[v].regClass && a[v].crossesCall == b[v].crossesCall
  }

  ghost predicate TouchedOnce(before: seq<set<int>>, after: seq<set<int>>, vregs: seq<int>, pos: int) {
    |after| == |before| && forall v: nat :: v < |before| ==> after[v] == before[v] + At(v in vregs, pos)
  }

  // Extends the intervals of some vregs to a position.
  method ExtendAll(intervals: array<Interval>, vregs: seq<int>, pos: int, ghost touched: seq<set<int>>) returns (ghost after: seq<set<int>>)
    requires Hulls(intervals[..], touched) && 0 <= pos < NEVER
    requires forall k :: 0 <= k < |vregs| ==> 0 <= vregs[k] < intervals.Length
    modifies intervals
    ensures Hulls(intervals[..], after) && TouchedOnce(touched, after, vregs, pos)
    ensures SameKind(old(intervals[..]), intervals[..])
  {
    after := touched;
    for u := 0 to |vregs|
      invariant Hulls(intervals[..], after) && TouchedOnce(touched, after, vregs[..u], pos)
      invariant SameKind(old(intervals[..]), intervals[..])
    {
      var v := vregs[u];
      assert vregs[..u + 1] == vregs[..u] + [v];
      ghost var before := intervals[..];
      ExtendIsHull(intervals[v], after[v], pos);
      intervals[v] := Extend(intervals[v], pos);
      assert intervals[..] == before[v := intervals[v]];
      after := after[v := after[v] + {pos}];
    }
    assert vregs[..|vregs|] == vregs;
  }

  // The interval of a vreg, extended to a position if the vreg is in the set
  method ExtendIf(interval: Interval, words: array<bv64>, v: nat, pos: int, ghost touched: set<int>)
    returns (extended: Interval, ghost after: set<int>)
    requires v < Bitsets.WORD * words.Length && Hull(interval, touched) && 0 <= pos < NEVER
    ensures Hull(extended, after) && after == touched + At(v in Bitsets.Elements(words[..]), pos)
    ensures extended.regClass == interval.regClass && extended.crossesCall == interval.crossesCall
  {
    hide Bitsets.Elements;
    extended, after := interval, touched;
    var has := Bitsets.Get(words, v);
    if has {
      ExtendIsHull(interval, touched, pos);
      extended, after := Extend(interval, pos), touched + {pos};
    }
  }

  method ExtendEdges(interval: Interval, liveIn: array<bv64>, start: int, liveOut: array<bv64>, end: int, v: nat, ghost touched: set<int>)
    returns (extended: Interval, ghost after: set<int>)
    requires v < Bitsets.WORD * liveIn.Length && v < Bitsets.WORD * liveOut.Length
    requires Hull(interval, touched) && 0 <= start < NEVER && 0 <= end < NEVER
    ensures Hull(extended, after)
    ensures after == touched + (At(v in Bitsets.Elements(liveIn[..]), start) + At(v in Bitsets.Elements(liveOut[..]), end))
    ensures extended.regClass == interval.regClass && extended.crossesCall == interval.crossesCall
  {
    hide Bitsets.Elements, Hull, At;
    extended, after := ExtendIf(interval, liveIn, v, start, touched);
    extended, after := ExtendIf(extended, liveOut, v, end, after);
  }

  // live_in extends to the start of the block, live_out to its end, one vreg after the other.
  method ExtendLive(intervals: array<Interval>, liveIn: array<bv64>, start: int, liveOut: array<bv64>, end: int,
                    ghost ins: set<int>, ghost outs: set<int>, ghost touched: seq<set<int>>) returns (ghost after: seq<set<int>>)
    requires intervals.Length <= Bitsets.WORD * liveIn.Length && intervals.Length <= Bitsets.WORD * liveOut.Length
    requires liveIn as object != intervals && liveOut as object != intervals
    requires ins == Bitsets.Elements(liveIn[..]) && outs == Bitsets.Elements(liveOut[..])
    requires Hulls(intervals[..], touched) && 0 <= start < NEVER && 0 <= end < NEVER
    modifies intervals
    ensures Hulls(intervals[..], after) && |after| == |touched|
    ensures forall v: nat :: v < |touched| ==> after[v] == touched[v] + (At(v in ins, start) + At(v in outs, end))
    ensures SameKind(old(intervals[..]), intervals[..])
  {
    hide Bitsets.Elements, Hull, At;
    after := touched;
    for v := 0 to intervals.Length
      invariant Hulls(intervals[..], after) && |after| == |touched|
      invariant liveIn[..] == old(liveIn[..]) && liveOut[..] == old(liveOut[..])
      invariant forall w: nat :: w < v ==> after[w] == touched[w] + (At(w in ins, start) + At(w in outs, end))
      invariant forall w: nat :: v <= w < |touched| ==> after[w] == touched[w]
      invariant SameKind(old(intervals[..]), intervals[..])
    {
      ghost var before := intervals[..];
      ghost var mine;
      var interval;
      interval, mine := ExtendEdges(intervals[v], liveIn, start, liveOut, end, v, after[v]);
      intervals[v] := interval;
      assert intervals[..] == before[v := interval];
      after := after[v := mine];
    }
  }

  lemma BlockOperandsInRange(f: Function, b: nat, i: nat)
    requires InRange(f) && b < |f.blocks| && i < |f.blocks[b].insts|
    ensures forall k :: 0 <= k < |f.blocks[b].insts[i].uses| ==> 0 <= f.blocks[b].insts[i].uses[k] < f.VregCount()
    ensures NO_VREG <= f.blocks[b].insts[i].dst < f.VregCount()
  {
    forall k | 0 <= k < |f.blocks[b].insts[i].uses|
      ensures 0 <= f.blocks[b].insts[i].uses[k] < f.VregCount()
    {
      assert f.blocks[b].insts[i].uses[k] in f.blocks[b].insts[i].uses;
    }
  }

  method ExtendInst(f: Function, intervals: array<Interval>, b: nat, i: nat, pos: int, ghost touched: seq<set<int>>)
    returns (ghost after: seq<set<int>>)
    requires InRange(f) && intervals.Length == f.VregCount() && Hulls(intervals[..], touched)
    requires b < |f.blocks| && i < |f.blocks[b].insts| && 0 <= pos < NEVER
    modifies intervals
    ensures Hulls(intervals[..], after) && |after| == |touched|
    ensures forall v: nat :: v < |touched| ==>
      after[v] == touched[v] + At(v in f.blocks[b].insts[i].uses || v == f.blocks[b].insts[i].dst, pos)
    ensures SameKind(old(intervals[..]), intervals[..])
  {
    var inst := f.blocks[b].insts[i];
    BlockOperandsInRange(f, b, i);
    after := ExtendAll(intervals, inst.uses, pos, touched);
    if inst.dst != NO_VREG {
      after := ExtendAll(intervals, [inst.dst], pos, after);
    }
  }

  method ExtendInsts(f: Function, n: Numbering, intervals: array<Interval>, b: nat, ghost touched: seq<set<int>>)
    returns (ghost after: seq<set<int>>)
    requires InRange(f) && PositionsFit(f) && intervals.Length == f.VregCount() && Hulls(intervals[..], touched)
    requires b < |f.blocks| && IsNumbering(f, n)
    modifies intervals
    ensures Hulls(intervals[..], after) && |after| == |touched|
    ensures forall v: nat :: v < |touched| ==> after[v] == touched[v] + InstTouches(f, b, |f.blocks[b].insts|, v)
    ensures SameKind(old(intervals[..]), intervals[..])
  {
    after := touched;
    assert BlockNumbered(f, n, b);
    for i := 0 to |f.blocks[b].insts|
      invariant Hulls(intervals[..], after) && |after| == |touched|
      invariant forall v: nat :: v < |touched| ==> after[v] == touched[v] + InstTouches(f, b, i, v)
      invariant SameKind(old(intervals[..]), intervals[..])
    {
      PositionFits(f, Place(b, i));
      after := ExtendInst(f, intervals, b, i, n.instPositions[b][i], after);
    }
  }

  ghost predicate TouchedBy(f: Function, live: LiveSets, blocks: nat, touched: seq<set<int>>) {
    && |live.liveIn| == |f.blocks| == |live.liveOut| && blocks <= |f.blocks|
    && |touched| == f.VregCount()
    && forall v: nat :: v < |touched| ==> touched[v] == Touches(f, live, blocks, v)
  }

  // The tables hold these sets.
  ghost predicate Hold(f: Function, liveIn: seq<array<bv64>>, liveOut: seq<array<bv64>>, live: LiveSets)
    reads liveIn, liveOut
  {
    && |liveIn| == |f.blocks| == |liveOut| && live == LiveSets(LivenessWords.SetsOf(liveIn), LivenessWords.SetsOf(liveOut))
    && forall b :: 0 <= b < |f.blocks| ==> f.VregCount() <= Bitsets.WORD * liveIn[b].Length && f.VregCount() <= Bitsets.WORD * liveOut[b].Length
  }

  predicate AreOthers(intervals: array<Interval>, rows: seq<array<bv64>>) {
    forall b :: 0 <= b < |rows| ==> rows[b] as object != intervals
  }

  method ExtendBlock(f: Function, liveIn: seq<array<bv64>>, liveOut: seq<array<bv64>>, n: Numbering, intervals: array<Interval>, b: nat,
                     ghost live: LiveSets, ghost touched: seq<set<int>>) returns (ghost after: seq<set<int>>)
    requires Hold(f, liveIn, liveOut, live) && AreOthers(intervals, liveIn) && AreOthers(intervals, liveOut)
    requires InRange(f) && PositionsFit(f) && IsNumbering(f, n) && intervals.Length == f.VregCount()
    requires b < |f.blocks| && Hulls(intervals[..], touched) && TouchedBy(f, live, b, touched)
    modifies intervals
    ensures Hulls(intervals[..], after) && TouchedBy(f, live, b + 1, after)
    ensures SameKind(old(intervals[..]), intervals[..])
  {
    hide Bitsets.Elements, Hulls, At;
    assert BlockNumbered(f, n, b);
    PositionFits(f, Place(b, 0));
    PositionFits(f, Place(b, |f.blocks[b].insts|));
    after := ExtendLive(intervals, liveIn[b], n.blockStart[b], liveOut[b], n.blockEnd[b], live.liveIn[b], live.liveOut[b], touched);
    after := ExtendInsts(f, n, intervals, b, after);
    ghost var last := after;
    TermOperandsInRange(f, b);
    after := ExtendAll(intervals, TermUses(f.blocks[b].term), n.blockEnd[b], last);
    forall v: nat | v < |after|
      ensures after[v] == Touches(f, live, b + 1, v)
    {
      assert last[v] == touched[v] + LiveTouches(f, live, b, v) + InstTouches(f, b, |f.blocks[b].insts|, v);
      assert after[v] == touched[v] + BlockTouches(f, live, b, v);
    }
  }

  lemma TermOperandsInRange(f: Function, b: nat)
    requires InRange(f) && b < |f.blocks|
    ensures forall k :: 0 <= k < |TermUses(f.blocks[b].term)| ==> 0 <= TermUses(f.blocks[b].term)[k] < f.VregCount()
  {
    forall k | 0 <= k < |TermUses(f.blocks[b].term)|
      ensures 0 <= TermUses(f.blocks[b].term)[k] < f.VregCount()
    {
      assert TermUses(f.blocks[b].term)[k] in TermUses(f.blocks[b].term);
    }
  }

  function ClassOf(ty: IrType): RegClass {
    if ty.IsFloat() then Fpr else Gpr
  }

  ghost predicate CrossesCall(f: Function, start: int, end: int) {
    exists p :: CallAt(f, p) && start < Position(f, p) < end
  }

  // One interval per vreg: the hull of the positions that need it, and whether a call is strictly inside.
  ghost predicate AreIntervals(f: Function, live: LiveSets, intervals: seq<Interval>) {
    && |live.liveIn| == |f.blocks| == |live.liveOut|
    && |intervals| == f.VregCount()
    && forall v: nat :: v < |intervals| ==>
         && Hull(intervals[v], Touches(f, live, |f.blocks|, v))
         && intervals[v].regClass == ClassOf(f.vregTypes[v])
         && (intervals[v].crossesCall <==> CrossesCall(f, intervals[v].start, intervals[v].end))
  }

  method CrossesAny(f: Function, n: Numbering, interval: Interval) returns (crosses: bool)
    requires IsNumbering(f, n)
    ensures crosses <==> CrossesCall(f, interval.start, interval.end)
  {
    var calls := n.callPositions;
    crosses := false;
    for c := 0 to |calls|
      invariant forall k :: 0 <= k < c ==> !(interval.start < calls[k] < interval.end)
    {
      if interval.start < calls[c] < interval.end {
        assert calls[c] in calls;
        return true;
      }
    }
    forall p | CallAt(f, p)
      ensures !(interval.start < Position(f, p) < interval.end)
    {
      assert Position(f, p) in calls;
    }
  }

  method BuildIntervals(f: Function, liveIn: seq<array<bv64>>, liveOut: seq<array<bv64>>, ghost live: LiveSets) returns (intervals: seq<Interval>)
    requires InRange(f) && PositionsFit(f) && Hold(f, liveIn, liveOut, live)
    ensures AreIntervals(f, live, intervals)
  {
    hide Bitsets.Elements, Hull, At, InRange, PositionsFit, IsNumbering, AreIntervals;
    var table := new Interval[f.VregCount()](v requires 0 <= v < |f.vregTypes| => Interval(NEVER, -1, ClassOf(f.vregTypes[v]), false));
    ghost var initial := table[..];
    var n := Number(f);
    StartsAtTwo(f, |f.blocks|);
    ghost var touched := seq(f.VregCount(), _ => {});
    touched := ExtendAllParams(f, table, touched);
    for b := 0 to |f.blocks|
      invariant Hulls(table[..], touched) && TouchedBy(f, live, b, touched)
      invariant SameKind(initial, table[..]) && Hold(f, liveIn, liveOut, live)
    {
      touched := ExtendBlock(f, liveIn, liveOut, n, table, b, live, touched);
    }
    ghost var hulls := table[..];
    intervals := MarkCrossings(f, n, table[..]);
    MarkedAreIntervals(f, live, initial, hulls, touched, intervals);
  }

  lemma MarkedAreIntervals(f: Function, live: LiveSets, initial: seq<Interval>, hulls: seq<Interval>, touched: seq<set<int>>, marked: seq<Interval>)
    requires TouchedBy(f, live, |f.blocks|, touched) && Hulls(hulls, touched)
    requires SameKind(initial, hulls) && forall v :: 0 <= v < |initial| ==> initial[v].regClass == ClassOf(f.vregTypes[v])
    requires |marked| == |hulls|
    requires forall v :: 0 <= v < |hulls| ==> marked[v] == hulls[v].(crossesCall := marked[v].crossesCall)
    requires forall v :: 0 <= v < |hulls| ==> (marked[v].crossesCall <==> CrossesCall(f, marked[v].start, marked[v].end))
    ensures AreIntervals(f, live, marked)
  {
    forall v: nat | v < |marked|
      ensures Hull(marked[v], Touches(f, live, |f.blocks|, v))
    {
      assert Hull(hulls[v], touched[v]);
    }
  }

  method ExtendAllParams(f: Function, intervals: array<Interval>, ghost touched: seq<set<int>>) returns (ghost after: seq<set<int>>)
    requires InRange(f) && intervals.Length == f.VregCount() && |touched| == f.VregCount()
    requires forall v :: 0 <= v < |touched| ==> touched[v] == {}
    requires forall v :: 0 <= v < |touched| ==> intervals[v].start == NEVER && intervals[v].end == -1
    modifies intervals
    ensures Hulls(intervals[..], after) && |after| == |touched|
    ensures forall v: nat :: v < |touched| ==> after[v] == At(v in f.params, 0)
    ensures SameKind(old(intervals[..]), intervals[..])
  {
    assert forall k :: 0 <= k < |f.params| ==> f.params[k] in f.params;
    after := ExtendAll(intervals, f.params, 0, touched);
  }

  method MarkCrossings(f: Function, n: Numbering, intervals: seq<Interval>) returns (marked: seq<Interval>)
    requires IsNumbering(f, n)
    ensures |marked| == |intervals|
    ensures forall v :: 0 <= v < |intervals| ==> marked[v] == intervals[v].(crossesCall := marked[v].crossesCall)
    ensures forall v :: 0 <= v < |intervals| ==> (marked[v].crossesCall <==> CrossesCall(f, marked[v].start, marked[v].end))
  {
    marked := [];
    for v := 0 to |intervals|
      invariant |marked| == v
      invariant forall w :: 0 <= w < v ==> marked[w] == intervals[w].(crossesCall := marked[w].crossesCall)
      invariant forall w :: 0 <= w < v ==> (marked[w].crossesCall <==> CrossesCall(f, marked[w].start, marked[w].end))
    {
      var crosses := CrossesAny(f, n, intervals[v]);
      marked := marked + [intervals[v].(crossesCall := crosses)];
    }
  }

  datatype RegAllocResult = RegAllocResult(locations: seq<Location>, intervals: seq<Interval>, spillSlotCount: nat, usedCalleeSaved: seq<bool>)

  ghost predicate IsAllocation(f: Function, target: Target, live: LiveSets, result: RegAllocResult) {
    && IsLiveness(f, live)
    && AreIntervals(f, live, result.intervals)
    && ValidAllocation(target, result.intervals, result.locations, result.spillSlotCount)
    && |result.usedCalleeSaved| == MAX_REGS
    && forall r: nat :: r < MAX_REGS ==>
         (result.usedCalleeSaved[r] <==> r in target.calleeSaved && exists v :: 0 <= v < |result.locations| && result.locations[v] == InReg(r))
  }

  method UsedCalleeSaved(target: Target, locations: seq<Location>) returns (used: seq<bool>)
    requires forall v :: 0 <= v < |locations| && locations[v].InReg? ==> locations[v].reg < MAX_REGS
    ensures |used| == MAX_REGS
    ensures forall r: nat :: r < MAX_REGS ==>
      (used[r] <==> r in target.calleeSaved && exists v :: 0 <= v < |locations| && locations[v] == InReg(r))
  {
    used := seq(MAX_REGS, _ => false);
    for v := 0 to |locations|
      invariant |used| == MAX_REGS
      invariant forall r: nat :: r < MAX_REGS ==>
        (used[r] <==> r in target.calleeSaved && exists w :: 0 <= w < v && locations[w] == InReg(r))
    {
      if locations[v].InReg? && locations[v].reg in target.calleeSaved {
        used := used[locations[v].reg := true];
      }
    }
  }

  method RegallocFunction(f: Function, target: Target) returns (result: RegAllocResult, ghost live: LiveSets)
    requires InRange(f) && PositionsFit(f) && target.Valid()
    ensures IsAllocation(f, target, live, result)
    ensures AllPreferred(target, result.intervals, result.locations)
    ensures SpillsEndLast(target, result.intervals, result.locations)
    ensures result.spillSlotCount > 0 ==> exists v: nat :: Crowded(target, result.intervals, v)
  {
    var liveIn, liveOut := LivenessWords.ComputeLiveness(f);
    live := LiveSets(LivenessWords.SetsOf(liveIn), LivenessWords.SetsOf(liveOut));
    var intervals := BuildIntervals(f, liveIn, liveOut, live);
    var locations, spillCount := Scan(target, intervals);
    forall v | 0 <= v < |locations| && locations[v].InReg?
      ensures locations[v].reg < MAX_REGS
    {
      assert ValidLocation(target, intervals[v], locations[v], spillCount);
    }
    var used := UsedCalleeSaved(target, locations);
    result := RegAllocResult(locations, intervals, spillCount, used);
  }
}
