/** Finalizing a function: the blocks that no run reaches are dropped, the others keep their order and get
    their index and their predecessors. Blocks are known by their id; -1 stands for no successor. */
module Finalize {

  // successors[id] are the targets of the block's terminator
  type Graph = seq<seq<int>>

  predicate Edge(graph: Graph, from: nat, to: nat) {
    from < |graph| && to in graph[from]
  }

  ghost predicate IsWalk(graph: Graph, walk: seq<nat>) {
    |walk| > 0 && forall k :: 0 <= k < |walk| - 1 ==> Edge(graph, walk[k], walk[k + 1])
  }

  ghost predicate Reaches(graph: Graph, from: nat, to: nat) {
    exists walk :: IsWalk(graph, walk) && walk[0] == from && walk[|walk| - 1] == to
  }

  predicate ValidGraph(graph: Graph) {
    forall b, s :: 0 <= b < |graph| && s in graph[b] ==> -1 <= s < |graph|
  }

  lemma ReachesItself(graph: Graph, entry: nat)
    ensures Reaches(graph, entry, entry)
  {
    assert IsWalk(graph, [entry]) && [entry][0] == entry && [entry][|[entry]| - 1] == entry;
  }

  lemma ReachesOneMore(graph: Graph, entry: nat, b: nat, s: nat)
    requires Reaches(graph, entry, b) && Edge(graph, b, s)
    ensures Reaches(graph, entry, s)
  {
    var walk :| IsWalk(graph, walk) && walk[0] == entry && walk[|walk| - 1] == b;
    var longer := walk + [s];
    forall k | 0 <= k < |longer| - 1
      ensures Edge(graph, longer[k], longer[k + 1])
    {
      if k < |walk| - 1 {
        assert longer[k] == walk[k] && longer[k + 1] == walk[k + 1];
      }
    }
    assert IsWalk(graph, longer) && longer[0] == entry && longer[|longer| - 1] == s;
  }

  // A set with the entry that no edge leaves has everything a walk reaches.
  lemma {:induction false} ClosedHasWalk(graph: Graph, marked: seq<bool>, walk: seq<nat>)
    requires |marked| == |graph| && ValidGraph(graph) && IsWalk(graph, walk) && walk[0] < |graph| && marked[walk[0]]
    requires forall b: nat, s: nat :: b < |graph| && marked[b] && Edge(graph, b, s) ==> marked[s]
    ensures walk[|walk| - 1] < |graph| && marked[walk[|walk| - 1]]
    decreases |walk|
  {
    if |walk| > 1 {
      assert Edge(graph, walk[0], walk[1]);
      var rest := walk[1..];
      forall k | 0 <= k < |rest| - 1
        ensures Edge(graph, rest[k], rest[k + 1])
      {
        assert rest[k] == walk[k + 1] && rest[k + 1] == walk[k + 2];
      }
      ClosedHasWalk(graph, marked, rest);
    }
  }

  function Unmarked(marked: seq<bool>): nat {
    if |marked| == 0 then 0 else Unmarked(marked[..|marked| - 1]) + (if marked[|marked| - 1] then 0 else 1)
  }

  lemma {:induction false} MarkingLowers(marked: seq<bool>, b: nat)
    requires b < |marked| && !marked[b]
    ensures Unmarked(marked[b := true]) + 1 == Unmarked(marked)
  {
    var last := |marked| - 1;
    if b == last {
      assert marked[b := true][..last] == marked[..last];
    } else {
      assert marked[b := true][..last] == marked[..last][b := true];
      MarkingLowers(marked[..last], b);
    }
  }

  // Marked blocks are reached, and an edge that leaves the marked blocks starts at a block on the stack.
  ghost predicate Searching(graph: Graph, entry: nat, marked: seq<bool>, stack: seq<nat>) {
    && |marked| == |graph| && entry < |graph| && marked[entry]
    && (forall b: nat :: b < |graph| && marked[b] ==> Reaches(graph, entry, b))
    && (forall k :: 0 <= k < |stack| ==> stack[k] < |graph| && marked[stack[k]])
    && (forall b: nat, s: nat :: b < |graph| && marked[b] && b !in stack && Edge(graph, b, s) ==> s < |graph| && marked[s])
  }

  // Marks the successors of a block and pushes the new ones.
  method MarkSuccessors(graph: Graph, ghost entry: nat, b: nat, marked: array<bool>, rest: seq<nat>) returns (stack: seq<nat>)
    requires ValidGraph(graph) && Searching(graph, entry, marked[..], rest + [b])
    modifies marked
    ensures Searching(graph, entry, marked[..], stack)
    ensures Unmarked(marked[..]) < old(Unmarked(marked[..])) || (marked[..] == old(marked[..]) && stack == rest)
  {
    assert (rest + [b])[|rest|] == b;
    stack := rest;
    var count := |graph[b]|;
    for i := 0 to count
      invariant |stack| >= |rest| && stack[..|rest|] == rest
      invariant Searching(graph, entry, marked[..], stack + [b])
      invariant forall k :: 0 <= k < i && 0 <= graph[b][k] < |graph| ==> marked[graph[b][k]]
      invariant Unmarked(marked[..]) < old(Unmarked(marked[..])) || (marked[..] == old(marked[..]) && stack == rest)
    {
      var s := graph[b][i];
      assert s in graph[b];
      if s >= 0 && !marked[s] {
        assert (stack + [b])[|stack|] == b;
        ReachesOneMore(graph, entry, b, s);
        ghost var before := marked[..];
        MarkingLowers(before, s);
        marked[s] := true;
        assert marked[..] == before[s := true];
        KeepSearching(graph, entry, before, stack, b, s);
        stack := stack + [s];
      }
    }
    forall c: nat, s: nat | c < |graph| && marked[c] && c !in stack && Edge(graph, c, s)
      ensures s < |graph| && marked[s]
    {
      if c == b {
        var k :| 0 <= k < |graph[b]| && graph[b][k] == s;
      } else {
        assert c !in stack + [b];
      }
    }
    assert forall k :: 0 <= k < |stack| ==> (stack + [b])[k] == stack[k];
  }

  lemma KeepSearching(graph: Graph, entry: nat, marked: seq<bool>, stack: seq<nat>, b: nat, s: nat)
    requires Searching(graph, entry, marked, stack + [b]) && s < |graph| && !marked[s] && Reaches(graph, entry, s)
    ensures Searching(graph, entry, marked[s := true], stack + [s] + [b])
  {
    var before, after := stack + [b], stack + [s] + [b];
    var marked' := marked[s := true];
    forall k | 0 <= k < |after|
      ensures after[k] < |graph| && marked'[after[k]]
    {
      if k < |stack| {
        assert after[k] == before[k];
      } else if k == |stack| + 1 {
        assert after[k] == before[|stack|];
      }
    }
    forall c: nat, t: nat | c < |graph| && marked'[c] && c !in after && Edge(graph, c, t)
      ensures t < |graph| && marked'[t]
    {
      assert after[|stack|] == s;
      assert c != s;
      assert c !in before;
    }
  }

  // The blocks that a run can reach from the entry
  method MarkReachable(graph: Graph, entry: nat) returns (reachable: array<bool>)
    requires ValidGraph(graph) && entry < |graph|
    ensures fresh(reachable) && reachable.Length == |graph|
    ensures forall b: nat :: b < |graph| ==> (reachable[b] <==> Reaches(graph, entry, b))
  {
    reachable := new bool[|graph|](_ => false);
    ReachesItself(graph, entry);
    reachable[entry] := true;
    var stack: seq<nat> := [entry];
    while |stack| > 0
      invariant Searching(graph, entry, reachable[..], stack)
      decreases Unmarked(reachable[..]), |stack|
    {
      var b := stack[|stack| - 1];
      var rest := stack[..|stack| - 1];
      assert stack == rest + [b];
      stack := MarkSuccessors(graph, entry, b, reachable, rest);
    }
    forall b: nat | b < |graph| && Reaches(graph, entry, b)
      ensures reachable[b]
    {
      var walk :| IsWalk(graph, walk) && walk[0] == entry && walk[|walk| - 1] == b;
      ClosedHasWalk(graph, reachable[..], walk);
    }
  }

  // ---------------------------------------------------------------------------------------
  // Compaction and predecessors
  // ---------------------------------------------------------------------------------------

  // The members of the layout that are kept, in order
  function Kept(layout: seq<nat>, keep: seq<bool>): seq<nat>
    requires forall k :: 0 <= k < |layout| ==> layout[k] < |keep|
  {
    if |layout| == 0 then []
    else
      var last := layout[|layout| - 1];
      Kept(layout[..|layout| - 1], keep) + (if keep[last] then [last] else [])
  }

  function Times(targets: seq<int>, s: nat, from: nat): seq<nat> {
    if |targets| == 0 then []
    else Times(targets[..|targets| - 1], s, from) + (if targets[|targets| - 1] == s then [from] else [])
  }

  // One entry for each edge into s, from the blocks in layout order
  function Incoming(layout: seq<nat>, graph: Graph, s: nat): seq<nat>
    requires forall k :: 0 <= k < |layout| ==> layout[k] < |graph|
  {
    if |layout| == 0 then []
    else
      var last := layout[|layout| - 1];
      Incoming(layout[..|layout| - 1], graph, s) + Times(graph[last], s, last)
  }

  predicate Distinct(layout: seq<nat>) {
    forall i, j :: 0 <= i < j < |layout| ==> layout[i] != layout[j]
  }

  lemma {:induction false} KeptIsFilter(layout: seq<nat>, keep: seq<bool>)
    requires forall k :: 0 <= k < |layout| ==> layout[k] < |keep|
    requires Distinct(layout)
    ensures |Kept(layout, keep)| <= |layout| && Distinct(Kept(layout, keep))
    ensures forall b: nat :: b in Kept(layout, keep) <==> b in layout && keep[b]
  {
    if |layout| > 0 {
      var rest, last := layout[..|layout| - 1], layout[|layout| - 1];
      KeptIsFilter(rest, keep);
      assert layout == rest + [last];
      assert last !in rest;
    }
  }

  function CountEdges(targets: seq<int>, s: nat): nat {
    if |targets| == 0 then 0 else CountEdges(targets[..|targets| - 1], s) + (if targets[|targets| - 1] == s then 1 else 0)
  }

  lemma {:induction false} TimesCounts(targets: seq<int>, s: nat, from: nat)
    ensures multiset(Times(targets, s, from))[from] == CountEdges(targets, s)
    ensures forall b: nat :: b != from ==> multiset(Times(targets, s, from))[b] == 0
  {
    if |targets| > 0 {
      TimesCounts(targets[..|targets| - 1], s, from);
    }
  }

  // The predecessors list a block once for each of its edges, and no other block.
  lemma {:induction false} IncomingCountsEdges(layout: seq<nat>, graph: Graph, s: nat, b: nat)
    requires forall k :: 0 <= k < |layout| ==> layout[k] < |graph|
    requires Distinct(layout)
    ensures multiset(Incoming(layout, graph, s))[b] == if b in layout then CountEdges(graph[b], s) else 0
  {
    if |layout| > 0 {
      var rest, last := layout[..|layout| - 1], layout[|layout| - 1];
      IncomingCountsEdges(rest, graph, s, b);
      TimesCounts(graph[last], s, last);
      assert layout == rest + [last] && last !in rest;
    }
  }

  method FillPredecessors(layout: seq<nat>, graph: Graph, preds: array<seq<nat>>)
    requires ValidGraph(graph) && preds.Length == |graph|
    requires forall k :: 0 <= k < |layout| ==> layout[k] < |graph|
    modifies preds
    ensures forall s: nat :: s < |graph| ==> preds[s] == old(preds[s]) + Incoming(layout, graph, s)
  {
    for i := 0 to |layout|
      invariant forall s: nat :: s < |graph| ==> preds[s] == old(preds[s]) + Incoming(layout[..i], graph, s)
    {
      var b := layout[i];
      assert layout[..i + 1][..i] == layout[..i];
      ghost var before := preds[..];
      for j := 0 to |graph[b]|
        invariant forall s: nat :: s < |graph| ==> preds[s] == before[s] + Times(graph[b][..j], s, b)
      {
        var s := graph[b][j];
        assert s in graph[b];
        assert graph[b][..j + 1][..j] == graph[b][..j];
        if s >= 0 {
          preds[s] := preds[s] + [b];
        }
      }
      assert graph[b][..|graph[b]|] == graph[b];
    }
    assert layout[..|layout|] == layout;
  }

  lemma KeptNext(layout: seq<nat>, keep: seq<bool>, i: nat)
    requires forall k :: 0 <= k < |layout| ==> layout[k] < |keep|
    requires i < |layout| && Distinct(layout)
    ensures Kept(layout[..i + 1], keep) == Kept(layout[..i], keep) + (if keep[layout[i]] then [layout[i]] else [])
    ensures forall k :: 0 <= k < |Kept(layout[..i], keep)| ==> Kept(layout[..i], keep)[k] != layout[i]
  {
    assert layout[..i + 1][..i] == layout[..i];
    KeptIsFilter(layout[..i], keep);
    forall k | 0 <= k < |Kept(layout[..i], keep)|
      ensures Kept(layout[..i], keep)[k] != layout[i]
    {
      assert Kept(layout[..i], keep)[k] in layout[..i];
    }
  }

  // Keeps the reachable blocks at the front of the layout.
  method Compact(layout: array<nat>, keep: seq<bool>, index: array<nat>, preds: array<seq<nat>>) returns (kept: nat)
    requires layout != index && index.Length == |keep| == preds.Length
    requires forall k :: 0 <= k < layout.Length ==> layout[k] < |keep|
    requires Distinct(layout[..])
    modifies layout, index, preds
    ensures kept <= layout.Length && layout[..kept] == Kept(old(layout[..]), keep)
    ensures forall i :: 0 <= i < kept ==> layout[i] < |keep| && index[layout[i]] == i && preds[layout[i]] == []
  {
    kept := 0;
    ghost var all := layout[..];
    for i := 0 to layout.Length
      invariant kept <= i
      invariant layout[..kept] == Kept(all[..i], keep)
      invariant forall k :: i <= k < layout.Length ==> layout[k] == all[k]
      invariant forall k :: 0 <= k < kept ==> layout[k] < |keep| && index[layout[k]] == k && preds[layout[k]] == []
    {
      var b := layout[i];
      KeptNext(all, keep, i);
      assert forall k :: 0 <= k < kept ==> layout[k] == layout[..kept][k];
      if keep[b] {
        index[b] := kept;
        preds[b] := [];
        layout[kept] := b;
        kept := kept + 1;
        assert layout[..kept] == Kept(all[..i], keep) + [b];
      }
    }
    assert all[..layout.Length] == all;
  }

  method FinalizeFunction(layout: array<nat>, graph: Graph, index: array<nat>, preds: array<seq<nat>>) returns (kept: nat)
    requires ValidGraph(graph) && layout != index && index.Length == |graph| == preds.Length
    requires forall k :: 0 <= k < layout.Length ==> layout[k] < |graph|
    requires Distinct(layout[..])
    modifies layout, index, preds
    ensures kept <= layout.Length && (layout.Length == 0 ==> kept == 0)
    // exactly the reachable blocks, in layout order
    ensures exists keep: seq<bool> :: (|keep| == |graph| && layout[..kept] == Kept(old(layout[..]), keep)
      && forall b: nat :: b < |graph| && layout.Length > 0 ==> (keep[b] <==> Reaches(graph, old(layout[..])[0], b)))
    // the index is the place in the layout
    ensures forall i :: 0 <= i < kept ==> layout[i] < |graph| && index[layout[i]] == i
    // one predecessor for each edge from a kept block
    ensures forall i :: 0 <= i < kept ==> preds[layout[i]] == Incoming(layout[..kept], graph, layout[i])
  {
    if layout.Length == 0 {
      ghost var nothing := seq(|graph|, _ => false);
      assert layout[..0] == Kept(layout[..], nothing);
      return 0;
    }
    var reachable := MarkReachable(graph, layout[0]);
    ghost var keep := reachable[..];
    ghost var all := layout[..];
    kept := Compact(layout, reachable[..], index, preds);
    assert layout[..kept] == Kept(all, keep);
    FillPredecessors(layout[..kept], graph, preds);
  }
}
