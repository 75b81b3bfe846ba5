/** Giving the jumps of the text their sizes: all are short at first, and those that do not reach become long, until
    nothing changes. */
module AsmLayout {

  // An instruction, whose bytes and relocations are in the buffers of the assembler, or a jump to a label; condition is
  // -1 for jmp.
  datatype Item =
    | Code(start: nat, size: nat, relocStart: nat, relocCount: nat)
    | Jump(condition: int, target: nat)

  predicate ValidItem(item: Item) {
    item.Jump? ==> -1 <= item.condition < 16
  }

  // Where a symbol is as a label: the index of an item, -1 when it is not one of the text
  function LabelItem(labels: seq<int>, symbol: nat): int {
    if symbol < |labels| then labels[symbol] else -1
  }

  predicate ValidText(items: seq<Item>, labels: seq<int>) {
    && (forall i :: 0 <= i < |items| ==> ValidItem(items[i]))
    && forall s :: 0 <= s < |labels| ==> -1 <= labels[s] <= |items|
  }

  function SizeOf(item: Item, short: bool): nat {
    match item
    case Code(_, size, _, _) => size
    case Jump(condition, _) => if short then 2 else if condition < 0 then 5 else 6
  }

  // Where item i starts, when the jumps have these sizes
  function Offset(items: seq<Item>, short: seq<bool>, i: nat): nat
    requires i <= |items| == |short|
    decreases i
  {
    if i == 0 then 0 else Offset(items, short, i - 1) + SizeOf(items[i - 1], short[i - 1])
  }

  predicate FitsByte(d: int) {
    -128 <= d <= 127
  }

  // A short jump has a label, and reaches it.
  predicate Reaches(items: seq<Item>, labels: seq<int>, short: seq<bool>, i: nat)
    requires |items| == |short| && i < |items| && items[i].Jump? && ValidText(items, labels)
  {
    var target := LabelItem(labels, items[i].target);
    target >= 0 && FitsByte(Offset(items, short, target) - (Offset(items, short, i) + 2))
  }

  predicate ValidSizes(items: seq<Item>, labels: seq<int>, short: seq<bool>)
    requires |items| == |short| && ValidText(items, labels)
  {
    forall i :: 0 <= i < |items| && items[i].Jump? && short[i] ==> Reaches(items, labels, short, i)
  }

  // Every jump that is short in a is short in b.
  predicate ShortIn(items: seq<Item>, a: seq<bool>, b: seq<bool>)
    requires |items| == |a| == |b|
  {
    forall i :: 0 <= i < |items| && items[i].Jump? && a[i] ==> b[i]
  }

  // With more short jumps, nothing is further apart.
  lemma {:induction false} NoFurtherApart(items: seq<Item>, a: seq<bool>, b: seq<bool>, low: nat, high: nat)
    requires |items| == |a| == |b| && low <= high <= |items| && ShortIn(items, a, b)
    ensures 0 <= Offset(items, b, high) - Offset(items, b, low) <= Offset(items, a, high) - Offset(items, a, low)
    decreases high
  {
    if low < high {
      NoFurtherApart(items, a, b, low, high - 1);
    }
  }

  // A jump that does not reach with more short jumps does not reach with fewer.
  lemma ReachesInBoth(items: seq<Item>, labels: seq<int>, a: seq<bool>, b: seq<bool>, i: nat)
    requires |items| == |a| == |b| && ValidText(items, labels) && i < |items| && items[i].Jump?
    requires ShortIn(items, a, b) && a[i] && Reaches(items, labels, a, i)
    ensures Reaches(items, labels, b, i)
  {
    var target := LabelItem(labels, items[i].target);
    if target <= i {
      NoFurtherApart(items, a, b, target, i);
    } else {
      NoFurtherApart(items, a, b, i + 1, target);
      assert Offset(items, a, i + 1) == Offset(items, a, i) + 2;
      assert Offset(items, b, i + 1) == Offset(items, b, i) + 2;
    }
  }

  // Every valid choice of sizes makes no jump short that is long here.
  ghost predicate AtMostLong(items: seq<Item>, labels: seq<int>, short: seq<bool>)
    requires |items| == |short| && ValidText(items, labels)
  {
    forall other: seq<bool> :: |other| == |items| && ValidSizes(items, labels, other) ==> ShortIn(items, other, short)
  }

  function ShortCount(short: seq<bool>): nat
    decreases |short|
  {
    if |short| == 0 then 0 else ShortCount(short[..|short| - 1]) + if short[|short| - 1] then 1 else 0
  }

  lemma {:induction false} FewerShort(a: seq<bool>, b: seq<bool>)
    requires |a| == |b| && forall i :: 0 <= i < |a| ==> a[i] ==> b[i]
    ensures ShortCount(a) <= ShortCount(b)
    ensures a != b ==> ShortCount(a) < ShortCount(b)
    decreases |a|
  {
    if |a| > 0 {
      var n := |a| - 1;
      FewerShort(a[..n], b[..n]);
      if a != b && a[..n] == b[..n] {
        assert a == a[..n] + [a[n]] && b == b[..n] + [b[n]];
      }
    }
  }

  // The offsets, from the sizes as they are
  method ComputeOffsets(items: seq<Item>, isShort: array<bool>, offsets: array<int>)
    requires isShort.Length == |items| && offsets.Length == |items| + 1
    modifies offsets
    ensures forall i :: 0 <= i <= |items| ==> offsets[i] == Offset(items, isShort[..], i)
  {
    var offset := 0;
    ghost var short := isShort[..];
    for i := 0 to |items|
      invariant isShort[..] == short && offset == Offset(items, short, i)
      invariant forall k :: 0 <= k < i ==> offsets[k] == Offset(items, short, k)
    {
      offsets[i] := offset;
      offset := offset + SizeOf(items[i], isShort[i]);
    }
    offsets[|items|] := offset;
  }

  // A short jump that does not reach with the offsets is made long.
  method Lengthen(items: seq<Item>, labels: seq<int>, isShort: array<bool>, offsets: array<int>) returns (changed: bool)
    requires ValidText(items, labels) && isShort.Length == |items| && offsets.Length == |items| + 1
    requires forall i :: 0 <= i <= |items| ==> offsets[i] == Offset(items, isShort[..], i)
    modifies isShort
    ensures forall i :: 0 <= i < |items| ==>
              isShort[i] == (old(isShort[i]) && (items[i].Jump? ==> Reaches(items, labels, old(isShort[..]), i)))
    ensures !changed ==> isShort[..] == old(isShort[..])
    ensures changed ==> exists i :: 0 <= i < |items| && old(isShort[i]) && !isShort[i]
  {
    changed := false;
    for i := 0 to |items|
      invariant forall k :: i <= k < |items| ==> isShort[k] == old(isShort[k])
      invariant forall k :: 0 <= k < i ==>
        isShort[k] == (old(isShort[k]) && (items[k].Jump? ==> Reaches(items, labels, old(isShort[..]), k)))
      invariant !changed ==> forall k :: 0 <= k < i ==> isShort[k] == old(isShort[k])
      invariant changed ==> exists k :: 0 <= k < i && old(isShort[k]) && !isShort[k]
    {
      if !items[i].Jump? || !isShort[i] { continue; }
      var target := LabelItem(labels, items[i].target);
      if target < 0 {
        isShort[i] := false;
        changed := true;
        continue;
      }
      var displacement := offsets[target] - (offsets[i] + 2);
      if !FitsByte(displacement) {
        isShort[i] := false;
        changed := true;
      }
    }
  }

  // A jump that was made long is long in every valid choice.
  lemma StillAtMostLong(items: seq<Item>, labels: seq<int>, before: seq<bool>, after: seq<bool>)
    requires |items| == |before| == |after| && ValidText(items, labels) && AtMostLong(items, labels, before)
    requires forall i :: 0 <= i < |items| ==> after[i] == (before[i] && (items[i].Jump? ==> Reaches(items, labels, before, i)))
    ensures AtMostLong(items, labels, after)
  {
    forall other: seq<bool> | |other| == |items| && ValidSizes(items, labels, other)
      ensures ShortIn(items, other, after)
    {
      forall i | 0 <= i < |items| && items[i].Jump? && other[i]
        ensures after[i]
      {
        ReachesInBoth(items, labels, other, before, i);
      }
    }
  }

  // Ends with sizes that are valid and shortest, and the offsets they give.
  method Layout(items: seq<Item>, labels: seq<int>, isShort: array<bool>, offsets: array<int>)
    requires ValidText(items, labels) && isShort.Length == |items| && offsets.Length == |items| + 1
    requires forall i :: 0 <= i < |items| ==> isShort[i]
    modifies isShort, offsets
    ensures ValidSizes(items, labels, isShort[..]) && AtMostLong(items, labels, isShort[..])
    ensures forall i :: 0 <= i <= |items| ==> offsets[i] == Offset(items, isShort[..], i)
  {
    var changed := true;
    while changed
      invariant AtMostLong(items, labels, isShort[..])
      invariant !changed ==> ValidSizes(items, labels, isShort[..])
      invariant !changed ==> forall i :: 0 <= i <= |items| ==> offsets[i] == Offset(items, isShort[..], i)
      decreases ShortCount(isShort[..]), changed
    {
      ComputeOffsets(items, isShort, offsets);
      ghost var before := isShort[..];
      changed := Lengthen(items, labels, isShort, offsets);
      StillAtMostLong(items, labels, before, isShort[..]);
      FewerShort(isShort[..], before);
    }
  }
}
