/** Placing the text: every instruction at its offset, every jump with the displacement that leads to its label, and every
    relocation at the field of its instruction that it was for. */
module AsmText {
  import opened AsmLayout
  import opened LittleEndians

  const TWO_TO_31 := 0x8000_0000

  // A relocation, at an offset of the instruction buffer or of the text
  datatype Reloc = Reloc(offset: nat, kind: int, symbol: nat, addend: int)

  // ---------------------------------------------------------------------------------------
  // Jumps
  // ---------------------------------------------------------------------------------------

  function JumpBytes(condition: int, isShort: bool, d: int): seq<int>
    requires -1 <= condition < 16
  {
    if isShort then [if condition < 0 then 0xEB else 0x70 + condition] + LittleEndian(d, 1)
    else if condition < 0 then [0xE9] + LittleEndian(d, 4)
    else [0x0F, 0x80 + condition] + LittleEndian(d, 4)
  }

  datatype Decoded = JumpOf(condition: int, length: nat, displacement: int) | NoJump

  // The jump that a processor reads at a place (Intel SDM, volume 2, Jcc and JMP)
  function Decode(text: seq<int>, at: nat): Decoded {
    if at + 2 <= |text| && text[at] == 0xEB then JumpOf(-1, 2, Signed(text[at + 1..at + 2]))
    else if at + 2 <= |text| && 0x70 <= text[at] < 0x80 then JumpOf(text[at] - 0x70, 2, Signed(text[at + 1..at + 2]))
    else if at + 5 <= |text| && text[at] == 0xE9 then
      JumpOf(-1, 5, Signed(text[at + 1..at + 5]))
    else if at + 6 <= |text| && text[at] == 0x0F && 0x80 <= text[at + 1] < 0x90 then
      JumpOf(text[at + 1] - 0x80, 6, Signed(text[at + 2..at + 6]))
    else NoJump
  }

  // A distance in the text
  lemma DistanceAt(text: seq<int>, at: nat, head: seq<int>, d: int, size: nat)
    requires -Range(size) <= 2 * d < Range(size)
    requires var bytes := head + LittleEndian(d, size); at + |bytes| <= |text| && text[at..at + |bytes|] == bytes
    ensures text[at..at + |head|] == head && Signed(text[at + |head|..at + |head| + size]) == d
  {
    var bytes := head + LittleEndian(d, size);
    SignedIsBack(d, size);
    assert text[at..at + |head|] == bytes[..|head|];
    assert text[at + |head|..at + |head| + size] == bytes[|head|..];
  }

  // What is written for a jump is read as that jump, wherever it is in the text.
  lemma JumpIsRead(text: seq<int>, at: nat, condition: int, isShort: bool, d: int)
    requires -1 <= condition < 16 && (isShort ==> FitsByte(d)) && -TWO_TO_31 <= d < TWO_TO_31
    requires at + |JumpBytes(condition, isShort, d)| <= |text|
    requires text[at..at + |JumpBytes(condition, isShort, d)|] == JumpBytes(condition, isShort, d)
    ensures Decode(text, at) == JumpOf(condition, |JumpBytes(condition, isShort, d)|, d)
  {
    var head := if isShort then [if condition < 0 then 0xEB else 0x70 + condition]
                else if condition < 0 then [0xE9] else [0x0F, 0x80 + condition];
    assert Range(1) == 256 && Range(4) == 2 * TWO_TO_31;
    DistanceAt(text, at, head, d, if isShort then 1 else 4);
    forall k | 0 <= k < |head|
      ensures text[at + k] == head[k]
    {
      assert text[at..at + |head|][k] == head[k];
    }
    JumpHasHead(text, at, condition, isShort, head, d);
  }

  // A jump is known by its head.
  lemma JumpHasHead(text: seq<int>, at: nat, condition: int, isShort: bool, head: seq<int>, d: int)
    requires -1 <= condition < 16
    requires head == if isShort then [if condition < 0 then 0xEB else 0x70 + condition]
                     else if condition < 0 then [0xE9] else [0x0F, 0x80 + condition]
    requires at + |head| + (if isShort then 1 else 4) <= |text| && forall k :: 0 <= k < |head| ==> text[at + k] == head[k]
    requires Signed(text[at + |head|..at + |head| + if isShort then 1 else 4]) == d
    ensures Decode(text, at) == JumpOf(condition, |head| + if isShort then 1 else 4, d)
  {
    assert text[at + 0] == head[0];
    assert |head| == 2 ==> text[at + 1] == head[1];
  }

  // ---------------------------------------------------------------------------------------
  // The text
  // ---------------------------------------------------------------------------------------

  // The buffers that the items refer to
  datatype Buffers = Buffers(bytes: seq<int>, pending: seq<Reloc>)

  predicate InBuffers(item: Item, b: Buffers) {
    item.Code? ==>
      && item.start + item.size <= |b.bytes| && item.relocStart + item.relocCount <= |b.pending|
      && (forall r :: item.relocStart <= r < item.relocStart + item.relocCount ==>
            item.start <= b.pending[r].offset)
  }

  predicate AllInBuffers(items: seq<Item>, b: Buffers) {
    forall i :: 0 <= i < |items| ==> InBuffers(items[i], b)
  }

  predicate HasLabel(items: seq<Item>, labels: seq<int>, i: nat)
    requires i < |items|
  {
    items[i].Jump? ==> items[i].target < |labels| && labels[items[i].target] >= 0
  }

  // Item i as bytes of the text
  ghost predicate IsPlaced(items: seq<Item>, labels: seq<int>, short: seq<bool>, b: Buffers, text: seq<int>, i: nat)
    requires ValidText(items, labels) && AllInBuffers(items, b) && |short| == |items| && i < |items|
  {
    var at := Offset(items, short, i);
    && Offset(items, short, i + 1) <= |text|
    && match items[i]
       case Code(start, size, _, _) => text[at..at + size] == b.bytes[start..start + size]
       case Jump(condition, target) =>
         && target < |labels| && labels[target] >= 0
         && Decode(text, at) ==
            JumpOf(condition, Offset(items, short, i + 1) - at,
                   Offset(items, short, labels[target]) - Offset(items, short, i + 1))
  }

  // A relocation of the instruction buffer, for its instruction at another place
  function Shifted(r: Reloc, start: nat, at: nat): Reloc
    requires start <= r.offset
  {
    r.(offset := at + (r.offset - start))
  }

  function ShiftedAll(pending: seq<Reloc>, first: nat, count: nat, start: nat, at: nat): (relocs: seq<Reloc>)
    requires first + count <= |pending| && forall r :: first <= r < first + count ==> start <= pending[r].offset
    ensures |relocs| == count
    ensures forall k :: 0 <= k < count ==> relocs[k] == Shifted(pending[first + k], start, at)
    decreases count
  {
    if count == 0 then []
    else ShiftedAll(pending, first, count - 1, start, at) + [Shifted(pending[first + count - 1], start, at)]
  }

  function RelocsOf(item: Item, b: Buffers, at: nat): seq<Reloc>
    requires InBuffers(item, b)
  {
    if item.Jump? then [] else ShiftedAll(b.pending, item.relocStart, item.relocCount, item.start, at)
  }

  // The relocations of the first n items, in their order
  function PlacedRelocs(items: seq<Item>, short: seq<bool>, b: Buffers, n: nat): seq<Reloc>
    requires n <= |items| == |short| && AllInBuffers(items, b)
    decreases n
  {
    if n == 0 then []
    else PlacedRelocs(items, short, b, n - 1) + RelocsOf(items[n - 1], b, Offset(items, short, n - 1))
  }

  // Every label has the offset of its item.
  predicate LabelsPlaced(items: seq<Item>, labels: seq<int>, short: seq<bool>, symbols: seq<int>)
    requires ValidText(items, labels) && |short| == |items|
  {
    && |symbols| == |labels|
    && forall s :: 0 <= s < |labels| ==> symbols[s] == if labels[s] >= 0 then Offset(items, short, labels[s]) else -1
  }

  lemma {:induction false} OffsetsGrow(items: seq<Item>, short: seq<bool>, i: nat, j: nat)
    requires i <= j <= |items| == |short|
    ensures Offset(items, short, i) <= Offset(items, short, j)
    decreases j
  {
    if i < j {
      OffsetsGrow(items, short, i, j - 1);
    }
  }

  // What is placed stays placed when text is added.
  lemma StaysPlaced(items: seq<Item>, labels: seq<int>, short: seq<bool>, b: Buffers, text: seq<int>, more: seq<int>, i: nat)
    requires ValidText(items, labels) && AllInBuffers(items, b) && |short| == |items| && i < |items|
    requires IsPlaced(items, labels, short, b, text, i)
    ensures IsPlaced(items, labels, short, b, text + more, i)
  {
    var at := Offset(items, short, i);
    match items[i]
    case Code(start, size, _, _) =>
      assert (text + more)[at..at + size] == text[at..at + size];
    case Jump(_, _) =>
      DecodesInMore(text, more, at);
  }

  lemma DecodesInMore(text: seq<int>, more: seq<int>, at: nat)
    requires Decode(text, at).JumpOf?
    ensures Decode(text + more, at) == Decode(text, at)
  {
    forall i, j | 0 <= i <= j <= |text|
      ensures (text + more)[i..j] == text[i..j]
    {
    }
  }

  // The bytes of the next item
  method EmitItem(items: seq<Item>, labels: seq<int>, short: seq<bool>, offsets: array<int>, b: Buffers, i: nat, text: seq<int>)
    returns (bytes: seq<int>)
    requires ValidText(items, labels) && AllInBuffers(items, b) && |short| == |items| && i < |items| && HasLabel(items, labels, i)
    requires offsets.Length == |items| + 1 && forall k :: 0 <= k <= |items| ==> offsets[k] == Offset(items, short, k)
    requires items[i].Jump? && short[i] ==> Reaches(items, labels, short, i)
    requires |text| == Offset(items, short, i) && Offset(items, short, |items|) < TWO_TO_31
    ensures |text| + |bytes| == Offset(items, short, i + 1) && IsPlaced(items, labels, short, b, text + bytes, i)
  {
    var item := items[i];
    assert offsets[i + 1] == offsets[i] + SizeOf(item, short[i]);
    match item
    case Code(start, size, _, _) =>
      bytes := b.bytes[start..start + size];
      assert (text + bytes)[|text|..|text| + size] == bytes;
    case Jump(condition, _) =>
      var target := LabelItem(labels, item.target);
      var displacement := offsets[target] - (offsets[i] + SizeOf(item, short[i]));
      assert ValidItem(item);
      bytes := JumpBytes(condition, short[i], displacement);
      OffsetsGrow(items, short, target, |items|);
      OffsetsGrow(items, short, i + 1, |items|);
      JumpIsPlaced(items, labels, short, b, i, text, bytes, displacement);
  }

  lemma JumpIsPlaced(items: seq<Item>, labels: seq<int>, short: seq<bool>, b: Buffers, i: nat, text: seq<int>, bytes: seq<int>, d: int)
    requires ValidText(items, labels) && AllInBuffers(items, b) && |short| == |items| && i < |items| && HasLabel(items, labels, i)
    requires items[i].Jump? && |text| == Offset(items, short, i) && -TWO_TO_31 <= d < TWO_TO_31 && (short[i] ==> FitsByte(d))
    requires -1 <= items[i].condition < 16 && bytes == JumpBytes(items[i].condition, short[i], d)
    requires d == Offset(items, short, labels[items[i].target]) - Offset(items, short, i + 1)
    ensures |text| + |bytes| == Offset(items, short, i + 1) && IsPlaced(items, labels, short, b, text + bytes, i)
  {
    hide Decode, InBuffers, LittleEndian;
    assert (text + bytes)[|text|..|text| + |bytes|] == bytes;
    JumpIsRead(text + bytes, |text|, items[i].condition, short[i], d);
  }

  // The items up to n are placed.
  ghost predicate PlacedUpTo(items: seq<Item>, labels: seq<int>, short: seq<bool>, b: Buffers, text: seq<int>, n: nat)
    requires ValidText(items, labels) && AllInBuffers(items, b) && |short| == |items| && n <= |items|
    decreases n
  {
    n == 0 || (PlacedUpTo(items, labels, short, b, text, n - 1) && IsPlaced(items, labels, short, b, text, n - 1))
  }

  lemma {:induction false} EachIsPlaced(items: seq<Item>, labels: seq<int>, short: seq<bool>, b: Buffers, text: seq<int>, n: nat, i: nat)
    requires ValidText(items, labels) && AllInBuffers(items, b) && |short| == |items| && i < n <= |items|
    requires PlacedUpTo(items, labels, short, b, text, n)
    ensures IsPlaced(items, labels, short, b, text, i)
    decreases n
  {
    if i < n - 1 {
      EachIsPlaced(items, labels, short, b, text, n - 1, i);
    }
  }

  lemma {:induction false} StillPlaced(items: seq<Item>, labels: seq<int>, short: seq<bool>, b: Buffers, text: seq<int>, more: seq<int>, n: nat)
    requires ValidText(items, labels) && AllInBuffers(items, b) && |short| == |items| && n <= |items|
    requires PlacedUpTo(items, labels, short, b, text, n)
    ensures PlacedUpTo(items, labels, short, b, text + more, n)
    decreases n
  {
    if n > 0 {
      StillPlaced(items, labels, short, b, text, more, n - 1);
      StaysPlaced(items, labels, short, b, text, more, n - 1);
    }
  }

  method PlaceItem(items: seq<Item>, labels: seq<int>, short: seq<bool>, offsets: array<int>, b: Buffers, i: nat, before: seq<int>, relocsBefore: seq<Reloc>)
    returns (text: seq<int>, relocs: seq<Reloc>)
    requires ValidText(items, labels) && AllInBuffers(items, b) && |short| == |items| && i < |items| && HasLabel(items, labels, i)
    requires offsets.Length == |items| + 1 && forall k :: 0 <= k <= |items| ==> offsets[k] == Offset(items, short, k)
    requires ValidSizes(items, labels, short) && Offset(items, short, |items|) < TWO_TO_31
    requires |before| == Offset(items, short, i) && PlacedUpTo(items, labels, short, b, before, i)
    requires relocsBefore == PlacedRelocs(items, short, b, i)
    ensures |text| == Offset(items, short, i + 1) && PlacedUpTo(items, labels, short, b, text, i + 1)
    ensures relocs == PlacedRelocs(items, short, b, i + 1)
  {
    var bytes := EmitItem(items, labels, short, offsets, b, i, before);
    StillPlaced(items, labels, short, b, before, bytes, i);
    relocs := relocsBefore + RelocsOf(items[i], b, |before|);
    text := before + bytes;
  }

  // The items up to n have their labels.
  predicate LabelsUpTo(items: seq<Item>, labels: seq<int>, n: nat)
    requires n <= |items|
    decreases n
  {
    n == 0 || (LabelsUpTo(items, labels, n - 1) && HasLabel(items, labels, n - 1))
  }

  lemma {:induction false} EachHasLabel(items: seq<Item>, labels: seq<int>, n: nat)
    requires n <= |items|
    ensures LabelsUpTo(items, labels, n) <==> forall i :: 0 <= i < n ==> HasLabel(items, labels, i)
    decreases n
  {
    if n > 0 {
      EachHasLabel(items, labels, n - 1);
    }
  }

  lemma MissingLabel(items: seq<Item>, labels: seq<int>, i: nat)
    requires i < |items| && !HasLabel(items, labels, i)
    ensures !LabelsUpTo(items, labels, |items|)
  {
    EachHasLabel(items, labels, |items|);
  }

  // The items in their order; fails at the first jump that has no label.
  method PlaceItems(items: seq<Item>, labels: seq<int>, short: seq<bool>, offsets: array<int>, b: Buffers)
    returns (ok: bool, text: seq<int>, relocs: seq<Reloc>)
    requires ValidText(items, labels) && AllInBuffers(items, b) && |short| == |items| && ValidSizes(items, labels, short)
    requires offsets.Length == |items| + 1 && forall k :: 0 <= k <= |items| ==> offsets[k] == Offset(items, short, k)
    requires Offset(items, short, |items|) < TWO_TO_31
    ensures ok <==> LabelsUpTo(items, labels, |items|)
    ensures ok ==> |text| == Offset(items, short, |items|) && PlacedUpTo(items, labels, short, b, text, |items|)
    ensures ok ==> relocs == PlacedRelocs(items, short, b, |items|)
  {
    text, relocs := [], [];
    for i := 0 to |items|
      invariant |text| == Offset(items, short, i) && PlacedUpTo(items, labels, short, b, text, i)
      invariant LabelsUpTo(items, labels, i)
      invariant relocs == PlacedRelocs(items, short, b, i)
    {
      if !HasLabel(items, labels, i) {
        MissingLabel(items, labels, i);
        return false, text, relocs;
      }
      text, relocs := PlaceItem(items, labels, short, offsets, b, i, text, relocs);
    }
    ok := true;
  }

  method PlaceLabels(items: seq<Item>, labels: seq<int>, short: seq<bool>, offsets: array<int>) returns (symbols: seq<int>)
    requires ValidText(items, labels) && |short| == |items|
    requires offsets.Length == |items| + 1 && forall k :: 0 <= k <= |items| ==> offsets[k] == Offset(items, short, k)
    ensures LabelsPlaced(items, labels, short, symbols)
  {
    symbols := [];
    for s := 0 to |labels|
      invariant |symbols| == s
      invariant forall k :: 0 <= k < s ==> symbols[k] == if labels[k] >= 0 then Offset(items, short, labels[k]) else -1
    {
      symbols := symbols + [if labels[s] >= 0 then offsets[labels[s]] else -1];
    }
  }

  function AllLong(items: seq<Item>): seq<bool> {
    seq(|items|, _ => false)
  }

  // What a processor reads at the offset of an item: the bytes of its instruction, or a jump to where the symbol is.
  ghost predicate Leads(item: Item, b: Buffers, text: seq<int>, symbols: seq<int>, at: nat, next: nat) {
    && at <= next <= |text|
    && match item
       case Code(start, size, _, _) => start + size <= |b.bytes| && text[at..next] == b.bytes[start..start + size]
       case Jump(condition, target) =>
         target < |symbols| && Decode(text, at) == JumpOf(condition, next - at, symbols[target] - next)
  }

  lemma ItemLeads(items: seq<Item>, labels: seq<int>, short: seq<bool>, b: Buffers, text: seq<int>, symbols: seq<int>, i: nat)
    requires ValidText(items, labels) && AllInBuffers(items, b) && |short| == |items| && i < |items|
    requires PlacedUpTo(items, labels, short, b, text, |items|) && LabelsPlaced(items, labels, short, symbols)
    ensures Leads(items[i], b, text, symbols, Offset(items, short, i), Offset(items, short, i + 1))
  {
    hide PlacedUpTo, Decode, Offset;
    EachIsPlaced(items, labels, short, b, text, |items|, i);
    assert Offset(items, short, i + 1) == Offset(items, short, i) + SizeOf(items[i], short[i]) by {
      OneMoreItem(items, short, i);
    }
  }

  lemma OneMoreItem(items: seq<Item>, short: seq<bool>, i: nat)
    requires i < |items| == |short|
    ensures Offset(items, short, i + 1) == Offset(items, short, i) + SizeOf(items[i], short[i])
  {
  }

  // How far a jump to a symbol would be if it was short
  function ShortDistance(items: seq<Item>, labels: seq<int>, short: seq<bool>, symbols: seq<int>, i: nat): int
    requires i < |items| == |short| && items[i].Jump? && |labels| == |symbols|
  {
    if items[i].target >= |labels| then 0
    else symbols[items[i].target] - if labels[items[i].target] <= i then Offset(items, short, i) + 2 else Offset(items, short, i + 1)
  }

  // An offset depends on the choices before it, and a distance on those in between.
  lemma {:induction false} OffsetsBefore(items: seq<Item>, a: seq<bool>, b: seq<bool>, i: nat)
    requires i <= |items| == |a| == |b| && forall k :: 0 <= k < i ==> a[k] == b[k]
    ensures Offset(items, a, i) == Offset(items, b, i)
    decreases i
  {
    if i > 0 {
      OffsetsBefore(items, a, b, i - 1);
    }
  }

  lemma {:induction false} DistancesAfter(items: seq<Item>, a: seq<bool>, b: seq<bool>, i: nat, j: nat)
    requires i <= j <= |items| == |a| == |b| && forall k :: i <= k < j ==> a[k] == b[k]
    ensures Offset(items, a, j) - Offset(items, a, i) == Offset(items, b, j) - Offset(items, b, i)
    decreases j
  {
    if i < j {
      DistancesAfter(items, a, b, i, j - 1);
    }
  }

  // With jump i made short, it reaches its label exactly when the distance is a signed byte.
  lemma ReachesWhenShort(items: seq<Item>, labels: seq<int>, short: seq<bool>, symbols: seq<int>, i: nat)
    requires ValidText(items, labels) && |short| == |items| && i < |items| && items[i].Jump? && HasLabel(items, labels, i)
    requires LabelsPlaced(items, labels, short, symbols)
    ensures Reaches(items, labels, short[i := true], i) <==> -128 <= ShortDistance(items, labels, short, symbols, i) < 128
  {
    var other, target := short[i := true], labels[items[i].target];
    if target <= i {
      OffsetsBefore(items, short, other, i);
      OffsetsBefore(items, short, other, target);
    } else {
      DistancesAfter(items, short, other, i + 1, target);
    }
  }

  // The jumps that are short are the ones that can be.
  lemma ShortIffReaches(items: seq<Item>, labels: seq<int>, short: seq<bool>, symbols: seq<int>, i: nat)
    requires ValidText(items, labels) && |short| == |items| && ValidSizes(items, labels, short) && AtMostLong(items, labels, short)
    requires i < |items| && items[i].Jump? && HasLabel(items, labels, i) && LabelsPlaced(items, labels, short, symbols)
    ensures short[i] <==> -128 <= ShortDistance(items, labels, short, symbols, i) < 128
  {
    var other := short[i := true];
    ReachesWhenShort(items, labels, short, symbols, i);
    if short[i] {
      assert other == short;
    } else if Reaches(items, labels, other, i) {
      OneMoreShort(items, labels, short, i);
    }
  }

  lemma OneMoreShort(items: seq<Item>, labels: seq<int>, short: seq<bool>, i: nat)
    requires ValidText(items, labels) && |short| == |items| && ValidSizes(items, labels, short)
    requires i < |items| && items[i].Jump? && Reaches(items, labels, short[i := true], i)
    ensures ValidSizes(items, labels, short[i := true])
  {
    var other := short[i := true];
    forall j | 0 <= j < |items| && items[j].Jump? && other[j]
      ensures Reaches(items, labels, other, j)
    {
      if j != i {
        ReachesInBoth(items, labels, short, other, j);
      }
    }
  }

  lemma NoLonger(items: seq<Item>, short: seq<bool>)
    requires |short| == |items|
    ensures Offset(items, short, |items|) <= Offset(items, AllLong(items), |items|)
  {
    NoFurtherApart(items, AllLong(items), short, 0, |items|);
  }

  lemma AllHaveLabels(items: seq<Item>, labels: seq<int>)
    ensures LabelsUpTo(items, labels, |items|) <==>
            forall i :: 0 <= i < |items| && items[i].Jump? ==> items[i].target < |labels| && labels[items[i].target] >= 0
  {
    EachHasLabel(items, labels, |items|);
    if LabelsUpTo(items, labels, |items|) {
      forall i | 0 <= i < |items| && items[i].Jump?
        ensures items[i].target < |labels| && labels[items[i].target] >= 0
      {
        assert HasLabel(items, labels, i);
      }
    }
  }

  // Every item is read at its offset, and every jump is short exactly when that is far enough.
  ghost predicate AllLead(items: seq<Item>, labels: seq<int>, short: seq<bool>, b: Buffers, text: seq<int>, symbols: seq<int>)
    requires |short| == |items| && |labels| == |symbols|
  {
    forall i :: 0 <= i < |items| ==>
      && Leads(items[i], b, text, symbols, Offset(items, short, i), Offset(items, short, i + 1))
      && (items[i].Jump? ==> (short[i] <==> -128 <= ShortDistance(items, labels, short, symbols, i) < 128))
  }

  lemma EachLeads(items: seq<Item>, labels: seq<int>, short: seq<bool>, b: Buffers, text: seq<int>, symbols: seq<int>)
    requires ValidText(items, labels) && AllInBuffers(items, b) && |short| == |items|
    requires ValidSizes(items, labels, short) && AtMostLong(items, labels, short) && LabelsUpTo(items, labels, |items|)
    requires PlacedUpTo(items, labels, short, b, text, |items|) && LabelsPlaced(items, labels, short, symbols)
    ensures AllLead(items, labels, short, b, text, symbols)
  {
    hide Offset, ValidSizes, AtMostLong, PlacedUpTo, AllInBuffers, ShortDistance, ValidText, LabelsUpTo, Decode;
    EachHasLabel(items, labels, |items|);
    forall i: nat | i < |items|
      ensures Leads(items[i], b, text, symbols, Offset(items, short, i), Offset(items, short, i + 1))
      ensures items[i].Jump? ==> (short[i] <==> -128 <= ShortDistance(items, labels, short, symbols, i) < 128)
    {
      ItemLeads(items, labels, short, b, text, symbols, i);
      assert HasLabel(items, labels, i);
      if items[i].Jump? {
        ShortIffReaches(items, labels, short, symbols, i);
      }
    }
  }

  // Fails when a jump has no label; otherwise everything is placed, with the shortest sizes that are valid: every jump leads
  // to where its symbol is, and is short exactly when that is near enough.
  method FinishText(items: seq<Item>, labels: seq<int>, b: Buffers)
    returns (ok: bool, text: seq<int>, relocs: seq<Reloc>, symbols: seq<int>, ghost short: seq<bool>)
    requires ValidText(items, labels) && AllInBuffers(items, b)
    requires Offset(items, AllLong(items), |items|) < TWO_TO_31
    ensures |short| == |items| && ValidSizes(items, labels, short) && AtMostLong(items, labels, short)
    ensures ok <==> forall i :: 0 <= i < |items| && items[i].Jump? ==> items[i].target < |labels| && labels[items[i].target] >= 0
    ensures ok ==> |text| == Offset(items, short, |items|) && relocs == PlacedRelocs(items, short, b, |items|)
    ensures LabelsPlaced(items, labels, short, symbols)
    ensures ok ==> AllLead(items, labels, short, b, text, symbols)
  {
    hide Offset, HasLabel, PlacedUpTo, PlacedRelocs, AllInBuffers, AllLead, ValidSizes, AtMostLong, ValidText, LabelsUpTo, LabelsPlaced;
    var isShort := new bool[|items|](_ => true);
    var offsets := new int[|items| + 1];
    Layout(items, labels, isShort, offsets);
    var sizes := isShort[..];
    NoLonger(items, sizes);
    short := sizes;
    ok, text, relocs := PlaceItems(items, labels, sizes, offsets, b);
    symbols := PlaceLabels(items, labels, sizes, offsets);
    AllHaveLabels(items, labels);
    if ok {
      EachLeads(items, labels, sizes, b, text, symbols);
    }
  }

  // A relocation of an item is at the field of the placed instruction that it was for.
  lemma {:induction false} RelocIsAtItsField(items: seq<Item>, short: seq<bool>, b: Buffers, n: nat, i: nat, k: nat) returns (r: nat)
    requires i < n <= |items| == |short| && AllInBuffers(items, b) && items[i].Code? && k < items[i].relocCount
    ensures r < |PlacedRelocs(items, short, b, n)|
    ensures var pending := b.pending[items[i].relocStart + k];
            PlacedRelocs(items, short, b, n)[r] == pending.(offset := Offset(items, short, i) + (pending.offset - items[i].start))
    decreases n
  {
    hide RelocsOf, ShiftedAll, Offset;
    var all, before := PlacedRelocs(items, short, b, n), PlacedRelocs(items, short, b, n - 1);
    var own := RelocsOf(items[n - 1], b, Offset(items, short, n - 1));
    var pending := b.pending[items[i].relocStart + k];
    var placed := Shifted(pending, items[i].start, Offset(items, short, i));
    if i == n - 1 {
      OwnReloc(items[i], b, Offset(items, short, i), k);
      r := |before| + k;
    } else {
      r := RelocIsAtItsField(items, short, b, n - 1, i, k);
    }
    InConcat(all, before, own, r, placed);
  }

  lemma OwnReloc(item: Item, b: Buffers, at: nat, k: nat)
    requires InBuffers(item, b) && item.Code? && k < item.relocCount
    ensures k < |RelocsOf(item, b, at)| && RelocsOf(item, b, at)[k] == Shifted(b.pending[item.relocStart + k], item.start, at)
  {
  }

  lemma InConcat(all: seq<Reloc>, a: seq<Reloc>, b: seq<Reloc>, r: nat, x: Reloc)
    requires all == a + b
    requires (r < |a| && a[r] == x) || (|a| <= r < |a| + |b| && b[r - |a|] == x)
    ensures r < |all| && all[r] == x
  {
  }
}
