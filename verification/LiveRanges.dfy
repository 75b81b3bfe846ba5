/** How intervals relate to liveness: an interval contains every position where its vreg is live, and
    exactly one kind of call escapes the test for crossed calls. */
module LiveRanges {
  import opened Ir
  import opened Liveness
  import opened LinearScan
  import opened RegAlloc

  // v has a value after the instruction that it already had before it.
  ghost predicate LiveAcross(f: Function, p: Place, v: int) {
    && p.b < |f.blocks| && p.i < |f.blocks[p.b].insts|
    && DefAt(f, p) != v
    && LiveAt(f, Place(p.b, p.i + 1), v)
  }

  lemma LiveAcrossIsLive(f: Function, p: Place, v: int)
    requires LiveAcross(f, p, v)
    ensures LiveAt(f, p, v)
  {
    LiveAtStep(f, p, v);
    assert Follows(f, p, Place(p.b, p.i + 1));
  }

  // ---------------------------------------------------------------------------------------
  // What touches an interval
  // ---------------------------------------------------------------------------------------

  lemma {:induction false} TouchesGrow(f: Function, live: LiveSets, b: nat, blocks: nat, v: int, pos: int)
    requires b < blocks <= |f.blocks| && |live.liveIn| == |f.blocks| == |live.liveOut|
    requires pos in BlockTouches(f, live, b, v)
    ensures pos in Touches(f, live, blocks, v)
  {
    hide BlockTouches;
    if b < blocks - 1 {
      TouchesGrow(f, live, b, blocks - 1, v, pos);
      assert pos in Touches(f, live, blocks - 1, v) + BlockTouches(f, live, blocks - 1, v);
    } else {
      assert pos in Touches(f, live, b, v) + BlockTouches(f, live, b, v);
    }
  }

  lemma {:induction false} ParamTouches(f: Function, live: LiveSets, blocks: nat, v: int)
    requires blocks <= |f.blocks| && |live.liveIn| == |f.blocks| == |live.liveOut| && v in f.params
    ensures 0 in Touches(f, live, blocks, v)
  {
    if blocks > 0 {
      ParamTouches(f, live, blocks - 1, v);
    }
  }

  lemma {:induction false} InstTouchesItsVregs(f: Function, b: nat, i: nat, n: nat, v: int)
    requires b < |f.blocks| && i < n <= |f.blocks[b].insts|
    requires v in f.blocks[b].insts[i].uses || v == f.blocks[b].insts[i].dst
    ensures Position(f, Place(b, i)) in InstTouches(f, b, n, v)
  {
    if i < n - 1 {
      InstTouchesItsVregs(f, b, i, n - 1, v);
    }
  }

  lemma BlockTouchesParts(f: Function, live: LiveSets, b: nat, v: int, pos: int)
    requires b < |f.blocks| && |live.liveIn| == |f.blocks| == |live.liveOut|
    ensures pos in InstTouches(f, b, |f.blocks[b].insts|, v) ==> pos in BlockTouches(f, live, b, v)
    ensures v in TermUses(f.blocks[b].term) ==> BlockEnd(f, b) in BlockTouches(f, live, b, v)
  {
  }

  lemma PlaceTouches(f: Function, live: LiveSets, p: Place, v: int)
    requires IsPlace(f, p) && |live.liveIn| == |f.blocks| == |live.liveOut| && v >= 0
    requires v in UsesAt(f, p) || v == DefAt(f, p)
    ensures Position(f, p) in BlockTouches(f, live, p.b, v)
  {
    var n := |f.blocks[p.b].insts|;
    BlockTouchesParts(f, live, p.b, v, Position(f, p));
    if p.i < n {
      InstTouchesItsVregs(f, p.b, p.i, n, v);
      assert p == Place(p.b, p.i);
    } else {
      assert v in TermUses(f.blocks[p.b].term);
    }
  }

  ghost predicate Ranges(f: Function, live: LiveSets, intervals: seq<Interval>) {
    InRange(f) && IsLiveness(f, live) && AreIntervals(f, live, intervals)
  }

  lemma TouchedIsContained(f: Function, live: LiveSets, intervals: seq<Interval>, b: nat, v: nat, p: int)
    requires Ranges(f, live, intervals) && b < |f.blocks| && v < f.VregCount()
    requires p in BlockTouches(f, live, b, v)
    ensures intervals[v].Contains(p)
  {
    TouchesGrow(f, live, b, |f.blocks|, v, p);
    assert Hull(intervals[v], Touches(f, live, |f.blocks|, v));
  }

  lemma ParamContainsEntry(f: Function, live: LiveSets, intervals: seq<Interval>, v: nat)
    requires Ranges(f, live, intervals) && v < f.VregCount() && v in f.params
    ensures intervals[v].Contains(0)
  {
    ParamTouches(f, live, |f.blocks|, v);
    assert Hull(intervals[v], Touches(f, live, |f.blocks|, v));
  }

  // An interval contains the positions of the instructions and terminators that read or define its vreg.
  lemma OperandsAreContained(f: Function, live: LiveSets, intervals: seq<Interval>, p: Place, v: nat)
    requires Ranges(f, live, intervals) && IsPlace(f, p) && v < f.VregCount()
    requires v in UsesAt(f, p) || v == DefAt(f, p)
    ensures intervals[v].Contains(Position(f, p))
  {
    PlaceTouches(f, live, p, v);
    TouchedIsContained(f, live, intervals, p.b, v, Position(f, p));
  }

  // ---------------------------------------------------------------------------------------
  // Live means contained
  // ---------------------------------------------------------------------------------------

  // The interval starts early enough: at the start of the block when v comes in live, or at its definition.
  lemma {:induction false} LiveStarts(f: Function, live: LiveSets, intervals: seq<Interval>, b: nat, i: nat, v: nat)
    requires Ranges(f, live, intervals) && v < f.VregCount() && LiveAt(f, Place(b, i), v)
    ensures b < |f.blocks| && intervals[v].start <= Position(f, Place(b, i))
    ensures i > 0 ==> intervals[v].start < Position(f, Place(b, i))
  {
    LiveIsAPlace(f, Place(b, i), v);
    if i == 0 {
      assert v in live.liveIn[b];
      TouchedIsContained(f, live, intervals, b, v, BlockStart(f, b));
    } else if f.blocks[b].insts[i - 1].dst == v {
      OperandsAreContained(f, live, intervals, Place(b, i - 1), v);
    } else {
      assert LiveAcross(f, Place(b, i - 1), v);
      LiveAcrossIsLive(f, Place(b, i - 1), v);
      LiveStarts(f, live, intervals, b, i - 1, v);
    }
  }

  // The interval ends late enough: at a use in the block, or at the end of the block.
  lemma {:induction false} LiveEnds(f: Function, live: LiveSets, intervals: seq<Interval>, b: nat, i: nat, v: nat)
    requires Ranges(f, live, intervals) && v < f.VregCount() && LiveAt(f, Place(b, i), v)
    ensures b < |f.blocks| && Position(f, Place(b, i)) <= intervals[v].end
    decreases if b < |f.blocks| then |f.blocks[b].insts| - i else 0
  {
    var p := Place(b, i);
    LiveIsAPlace(f, p, v);
    LiveAtStep(f, p, v);
    if v in UsesAt(f, p) {
      OperandsAreContained(f, live, intervals, p, v);
    } else {
      var q :| Follows(f, p, q) && LiveAt(f, q, v);
      if i < |f.blocks[b].insts| {
        LiveEnds(f, live, intervals, b, i + 1, v);
      } else {
        assert q == Place(q.b, 0) && LeavesLive(f, b, v);
        TouchedIsContained(f, live, intervals, b, v, BlockEnd(f, b));
      }
    }
  }

  // The interval of a vreg has the position of every place where the vreg is live.
  lemma LiveIsContained(f: Function, live: LiveSets, intervals: seq<Interval>, p: Place, v: nat)
    requires Ranges(f, live, intervals) && v < f.VregCount() && LiveAt(f, p, v)
    ensures p.b < |f.blocks| && intervals[v].Contains(Position(f, p))
  {
    LiveStarts(f, live, intervals, p.b, p.i, v);
    LiveEnds(f, live, intervals, p.b, p.i, v);
  }

  // ---------------------------------------------------------------------------------------
  // Crossed calls
  // ---------------------------------------------------------------------------------------

  // The test start < call < end sees a value that is live across a call, exactly unless the call is the
  // first instruction of a block and the interval starts right there.
  lemma CallTestIsExact(f: Function, live: LiveSets, intervals: seq<Interval>, p: Place, v: nat)
    requires Ranges(f, live, intervals) && v < f.VregCount()
    requires CallAt(f, p) && LiveAcross(f, p, v)
    ensures intervals[v].start < Position(f, p) < intervals[v].end <==>
            p.i > 0 || intervals[v].start < BlockStart(f, p.b)
  {
    LiveAcrossIsLive(f, p, v);
    LiveStarts(f, live, intervals, p.b, p.i, v);
    LiveEnds(f, live, intervals, p.b, p.i + 1, v);
  }

  // No block opens with a call across which a vreg lives whose interval starts at that very block.
  ghost predicate NoIntervalStartsAtACall(f: Function, intervals: seq<Interval>) {
    |intervals| == f.VregCount() &&
    forall b: nat, v: nat :: CallAt(f, Place(b, 0)) && LiveAcross(f, Place(b, 0), v) && v < f.VregCount() ==>
      intervals[v].start < BlockStart(f, b)
  }

  // The test sees every value that lives across a call, if and only if no interval starts at a call like that.
  lemma CallTestIsCompleteIff(f: Function, live: LiveSets, intervals: seq<Interval>)
    requires Ranges(f, live, intervals)
    ensures NoIntervalStartsAtACall(f, intervals) <==>
            forall p, v: nat :: CallAt(f, p) && LiveAcross(f, p, v) && v < f.VregCount() ==>
              intervals[v].start < Position(f, p) < intervals[v].end
  {
    forall p, v: nat | CallAt(f, p) && LiveAcross(f, p, v) && v < f.VregCount()
      ensures intervals[v].start < Position(f, p) < intervals[v].end <==> p.i > 0 || intervals[v].start < BlockStart(f, p.b)
    {
      CallTestIsExact(f, live, intervals, p, v);
    }
    if NoIntervalStartsAtACall(f, intervals) {
      forall p, v: nat | CallAt(f, p) && LiveAcross(f, p, v) && v < f.VregCount()
        ensures intervals[v].start < Position(f, p) < intervals[v].end
      {
        if p.i == 0 {
          assert p == Place(p.b, 0);
        }
      }
    }
  }

  // What the scan needs of the marks: a value that lives across a call is marked, by this call or by another one.
  ghost predicate CrossingsAreMarked(f: Function, intervals: seq<Interval>) {
    |intervals| == f.VregCount() &&
    forall p, v: nat :: CallAt(f, p) && LiveAcross(f, p, v) && v < f.VregCount() ==> intervals[v].crossesCall
  }

  // A vreg that lives across a call that opens a block starts before it, or has another call strictly inside.
  ghost predicate OpeningCallsAreMarked(f: Function, intervals: seq<Interval>) {
    |intervals| == f.VregCount() &&
    forall b: nat, v: nat :: CallAt(f, Place(b, 0)) && LiveAcross(f, Place(b, 0), v) && v < f.VregCount() ==>
      intervals[v].start < BlockStart(f, b) || CrossesCall(f, intervals[v].start, intervals[v].end)
  }

  // Only the calls that open a block can go unmarked.
  lemma CrossingsAreMarkedIff(f: Function, live: LiveSets, intervals: seq<Interval>)
    requires Ranges(f, live, intervals)
    ensures CrossingsAreMarked(f, intervals) <==> OpeningCallsAreMarked(f, intervals)
  {
    forall p, v: nat | CallAt(f, p) && LiveAcross(f, p, v) && v < f.VregCount()
      ensures p.i > 0 || intervals[v].start < BlockStart(f, p.b) ==> intervals[v].crossesCall
      ensures intervals[v].crossesCall <==> CrossesCall(f, intervals[v].start, intervals[v].end)
    {
      CallTestIsExact(f, live, intervals, p, v);
    }
    if OpeningCallsAreMarked(f, intervals) {
      forall p, v: nat | CallAt(f, p) && LiveAcross(f, p, v) && v < f.VregCount()
        ensures intervals[v].crossesCall
      {
        if p.i == 0 {
          assert p == Place(p.b, 0);
        }
      }
    }
  }

  // In layout order, a definition comes before every place where the vreg is live. This is an assumption on the function,
  // which the verifier does not check.
  ghost predicate DefinitionsPrecede(f: Function) {
    forall p, v :: LiveAt(f, p, v) ==> v in f.params || exists q :: DefinedEarlier(f, q, p, v)
  }

  ghost predicate DefinedEarlier(f: Function, q: Place, p: Place, v: int) {
    IsPlace(f, q) && DefAt(f, q) == v && (q.b < p.b || (q.b == p.b && q.i < p.i))
  }

  lemma PrecedingDefinitionsSuffice(f: Function, live: LiveSets, intervals: seq<Interval>)
    requires Ranges(f, live, intervals) && DefinitionsPrecede(f)
    ensures NoIntervalStartsAtACall(f, intervals) && CrossingsAreMarked(f, intervals)
  {
    forall b: nat, v: nat | CallAt(f, Place(b, 0)) && LiveAcross(f, Place(b, 0), v) && v < f.VregCount()
      ensures intervals[v].start < BlockStart(f, b)
    {
      var p := Place(b, 0);
      LiveAcrossIsLive(f, p, v);
      StartsAtTwo(f, b);
      if v in f.params {
        ParamContainsEntry(f, live, intervals, v);
      } else {
        var q :| DefinedEarlier(f, q, p, v);
        OperandsAreContained(f, live, intervals, q, v);
        PositionsFollowLayout(f, q, p);
      }
    }
    CrossingsAreMarkedIff(f, live, intervals);
  }
}
