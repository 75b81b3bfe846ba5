/** The stack frame of a function: saved registers, IR slots, spill slots and outgoing arguments, each in its own place. */
module Frame {
  import opened Ir

  const REG_COUNT := 32
  const FIRST_XMM := 16

  datatype Slot = Slot(size: int, align: int)

  // Offsets are from rbp, which is 16 byte aligned; rsp is frameSize below it.
  datatype FrameLayout = FrameLayout(savedOffset: seq<int>, slotOffset: seq<int>, spillBase: int, frameSize: int)

  // What the frame is laid out for
  datatype FrameNeeds = FrameNeeds(used: seq<bool>, slots: seq<Slot>, spillCount: nat, code: seq<seq<RawInst>>) {
    predicate Valid() {
      |used| == REG_COUNT && forall i :: 0 <= i < |slots| ==> slots[i].size >= 1 && slots[i].align >= 1
    }
  }

  function Multiple(q: int, alignment: int): int { q * alignment }

  ghost predicate Aligned(value: int, alignment: int) {
    exists q :: value == Multiple(q, alignment)
  }

  // align_to
  function AlignTo(value: int, alignment: int): (r: int)
    requires value >= 0 && alignment >= 1
    ensures value <= r < value + alignment && Aligned(r, alignment)
  {
    var q := (value + alignment - 1) / alignment;
    assert q * alignment == Multiple(q, alignment);
    q * alignment
  }

  lemma NegativeIsAligned(value: int, alignment: int)
    requires Aligned(value, alignment)
    ensures Aligned(-value, alignment)
  {
    var q :| value == Multiple(q, alignment);
    assert -value == Multiple(-q, alignment);
  }

  // ---------------------------------------------------------------------------------------
  // What a layout promises
  // ---------------------------------------------------------------------------------------

  // Bytes [at, at + size) from rbp
  datatype Region = Region(at: int, size: int)

  predicate Apart(a: Region, b: Region) {
    a.at + a.size <= b.at || b.at + b.size <= a.at
  }

  predicate Inside(a: Region, low: int, high: int) {
    low <= a.at && a.at + a.size <= high
  }

  // More than 16 is not kept, as rbp is only 16 byte aligned.
  function SlotAlign(slot: Slot): int { if slot.align > 16 then 16 else slot.align }

  function SavedSize(reg: nat): int { if reg >= FIRST_XMM then 16 else 8 }

  function SavedRegion(frame: FrameLayout, reg: nat): Region
    requires reg < |frame.savedOffset|
  {
    Region(frame.savedOffset[reg], SavedSize(reg))
  }

  function SlotRegion(needs: FrameNeeds, frame: FrameLayout, i: nat): Region
    requires i < |needs.slots| && i < |frame.slotOffset|
  {
    Region(frame.slotOffset[i], needs.slots[i].size)
  }

  // x64_spill_offset
  function SpillRegion(frame: FrameLayout, slot: nat): Region {
    Region(frame.spillBase - 8 * slot, 8)
  }

  // [rsp + 8*i]
  function ArgumentRegion(frame: FrameLayout, i: nat): Region {
    Region(-frame.frameSize + 8 * i, 8)
  }

  // A call needs its arguments and the four of the shadow space; a memcpy or memset is a call of three.
  predicate NeedsArgument(inst: RawInst, i: nat) {
    || (inst.op == CallOp && (i < 4 || i < |inst.call.args|))
    || ((inst.op == Memcpy || inst.op == Memset) && i < 4)
  }

  predicate SomeCallNeeds(needs: FrameNeeds, i: nat) {
    exists b, k :: 0 <= b < |needs.code| && 0 <= k < |needs.code[b]| && NeedsArgument(needs.code[b][k], i)
  }

  ghost predicate SavedOk(needs: FrameNeeds, frame: FrameLayout, low: int, high: int)
    requires |needs.used| == REG_COUNT == |frame.savedOffset|
  {
    && (forall r: nat :: r < REG_COUNT && needs.used[r] ==> Inside(SavedRegion(frame, r), low, high))
    && (forall r: nat :: FIRST_XMM <= r < REG_COUNT && needs.used[r] ==> Aligned(frame.savedOffset[r], 16))
    && (forall r: nat, q: nat :: r < REG_COUNT && q < REG_COUNT && r != q && needs.used[r] && needs.used[q] ==>
          Apart(SavedRegion(frame, r), SavedRegion(frame, q)))
  }

  ghost predicate SlotsOk(needs: FrameNeeds, frame: FrameLayout, low: int, high: int)
    requires |needs.slots| == |frame.slotOffset| && needs.Valid()
  {
    && (forall i: nat :: i < |needs.slots| ==> Inside(SlotRegion(needs, frame, i), low, high))
    && (forall i: nat :: i < |needs.slots| ==>
          Aligned(frame.slotOffset[i], SlotAlign(needs.slots[i])))
    && (forall i: nat, j: nat :: i < |needs.slots| && j < |needs.slots| && i != j ==>
          Apart(SlotRegion(needs, frame, i), SlotRegion(needs, frame, j)))
  }

  // Every part has its own stretch of the frame, from rbp down: saved registers, slots, spill slots, arguments.
  ghost predicate LaidOut(needs: FrameNeeds, frame: FrameLayout, saved: int, slots: int, spills: int)
    requires needs.Valid()
  {
    && |frame.savedOffset| == REG_COUNT && |frame.slotOffset| == |needs.slots|
    && 0 <= saved <= slots <= spills <= frame.frameSize
    && Aligned(frame.frameSize, 16) && Aligned(frame.spillBase, 8)
    && SavedOk(needs, frame, -saved, 0)
    && SlotsOk(needs, frame, -slots, -saved)
    && (forall s: nat :: s < needs.spillCount ==> Inside(SpillRegion(frame, s), -spills, -slots))
    && (forall i: nat :: SomeCallNeeds(needs, i) ==> Inside(ArgumentRegion(frame, i), -frame.frameSize, -spills))
  }

  // The parts as one list: saved registers, slots, spill slots and outgoing arguments
  datatype Part = Saved(reg: nat) | IrSlot(index: nat) | Spill(slot: nat) | Argument(i: nat)

  ghost predicate IsPart(needs: FrameNeeds, part: Part)
    requires needs.Valid()
  {
    match part
    case Saved(reg) => reg < REG_COUNT && needs.used[reg]
    case IrSlot(index) => index < |needs.slots|
    case Spill(slot) => slot < needs.spillCount
    case Argument(i) => SomeCallNeeds(needs, i)
  }

  ghost function RegionOf(needs: FrameNeeds, frame: FrameLayout, part: Part): Region
    requires needs.Valid() && IsPart(needs, part)
    requires |frame.savedOffset| == REG_COUNT && |frame.slotOffset| == |needs.slots|
  {
    match part
    case Saved(reg) => SavedRegion(frame, reg)
    case IrSlot(index) => SlotRegion(needs, frame, index)
    case Spill(slot) => SpillRegion(frame, slot)
    case Argument(i) => ArgumentRegion(frame, i)
  }

  // No two parts of the frame overlap, and all of them are between rsp and rbp.
  lemma PartsAreApart(needs: FrameNeeds, frame: FrameLayout, saved: int, slots: int, spills: int, a: Part, b: Part)
    requires needs.Valid() && LaidOut(needs, frame, saved, slots, spills)
    requires IsPart(needs, a) && IsPart(needs, b) && a != b
    ensures Apart(RegionOf(needs, frame, a), RegionOf(needs, frame, b))
    ensures Inside(RegionOf(needs, frame, a), -frame.frameSize, 0)
  {
  }

  lemma SumOfMultiples(p: int, q: int, alignment: int)
    requires alignment == 1 || alignment == 2 || alignment == 4 || alignment == 8 || alignment == 16
    ensures Aligned(Multiple(p, 16) + Multiple(q, alignment), alignment)
  {
    if alignment == 1 { assert Multiple(p, 16) + Multiple(q, 1) == Multiple(16 * p + q, 1); }
    else if alignment == 2 { assert Multiple(p, 16) + Multiple(q, 2) == Multiple(8 * p + q, 2); }
    else if alignment == 4 { assert Multiple(p, 16) + Multiple(q, 4) == Multiple(4 * p + q, 4); }
    else if alignment == 8 { assert Multiple(p, 16) + Multiple(q, 8) == Multiple(2 * p + q, 8); }
    else { assert Multiple(p, 16) + Multiple(q, 16) == Multiple(p + q, 16); }
  }

  predicate DividesSixteen(align: int) {
    align == 1 || align == 2 || align == 4 || align == 8 || align == 16
  }

  lemma SlotIsAligned(needs: FrameNeeds, frame: FrameLayout, saved: int, slots: int, spills: int, i: nat, rbp: int)
    requires needs.Valid() && LaidOut(needs, frame, saved, slots, spills)
    requires i < |needs.slots| && Aligned(rbp, 16) && DividesSixteen(needs.slots[i].align)
    ensures Aligned(rbp + frame.slotOffset[i], needs.slots[i].align)
  {
    var p :| rbp == Multiple(p, 16);
    var q :| frame.slotOffset[i] == Multiple(q, SlotAlign(needs.slots[i]));
    SumOfMultiples(p, q, needs.slots[i].align);
  }

  // With two frames that are 16 bytes apart
  lemma DividesTheDistance(offset: int, align: int)
    requires align >= 1 && Aligned(offset, align) && Aligned(16 + offset, align)
    ensures DividesSixteen(align)
  {
    var p :| offset == Multiple(p, align);
    var q :| 16 + offset == Multiple(q, align);
    var d := q - p;
    assert d * align == 16;
    SixteenIsDivided(d, align);
  }

  lemma SixteenIsDivided(d: int, align: int)
    requires align >= 1 && d * align == 16
    ensures DividesSixteen(align)
  {
    assert d >= 1;
    assert align <= 16;
    assert d == 1 || d == 2 || d == 3 || d == 4 || d >= 5;
    assert d >= 5 ==> align <= 3;
  }

  // A slot is at a multiple of its alignment wherever rbp is at a multiple of 16, if and only if 16 is a multiple of the
  // alignment.
  lemma SlotsAreAlignedIff(needs: FrameNeeds, frame: FrameLayout, saved: int, slots: int, spills: int, i: nat)
    requires needs.Valid() && LaidOut(needs, frame, saved, slots, spills) && i < |needs.slots|
    ensures (forall rbp :: Aligned(rbp, 16) ==> Aligned(rbp + frame.slotOffset[i], needs.slots[i].align))
       <==> DividesSixteen(needs.slots[i].align)
  {
    var align := needs.slots[i].align;
    if DividesSixteen(align) {
      forall rbp | Aligned(rbp, 16)
        ensures Aligned(rbp + frame.slotOffset[i], align)
      {
        SlotIsAligned(needs, frame, saved, slots, spills, i, rbp);
      }
    } else if forall rbp :: Aligned(rbp, 16) ==> Aligned(rbp + frame.slotOffset[i], align) {
      assert 0 == Multiple(0, 16) && 16 == Multiple(1, 16);
      assert Aligned(0, 16) && Aligned(16, 16);
      assert Aligned(0 + frame.slotOffset[i], align) && Aligned(16 + frame.slotOffset[i], align);
      DividesTheDistance(frame.slotOffset[i], align);
    }
  }

  // ---------------------------------------------------------------------------------------
  // The layout
  // ---------------------------------------------------------------------------------------

  ghost predicate SavedSoFar(used: seq<bool>, offsets: seq<int>, from: nat, to: nat, low: int, high: int)
    requires |used| == REG_COUNT == |offsets| && to <= REG_COUNT
  {
    && (forall r: nat :: from <= r < to && used[r] ==> low <= offsets[r] && offsets[r] + SavedSize(r) <= high)
    && (forall r: nat, q: nat :: from <= q < r < to && used[r] && used[q] ==> offsets[r] + SavedSize(r) <= offsets[q])
  }

  // Gives each used register of a bank its place, one below the other.
  method SaveRegisters(used: seq<bool>, offsets: seq<int>, from: nat, to: nat, start: int) returns (saved: seq<int>, depth: int)
    requires |used| == REG_COUNT == |offsets| && from <= to <= REG_COUNT && start >= 0
    requires from == FIRST_XMM || to <= FIRST_XMM
    ensures |saved| == REG_COUNT && depth >= start
    ensures forall r :: 0 <= r < REG_COUNT && !(from <= r < to) ==> saved[r] == offsets[r]
    ensures SavedSoFar(used, saved, from, to, -depth, -start)
    ensures from == FIRST_XMM ==> forall r: nat :: from <= r < to && used[r] ==> Aligned(saved[r], 16)
  {
    saved, depth := offsets, start;
    for r := from to to
      invariant |saved| == REG_COUNT && depth >= start
      invariant forall q :: 0 <= q < REG_COUNT && !(from <= q < r) ==> saved[q] == offsets[q]
      invariant SavedSoFar(used, saved, from, r, -depth, -start)
      invariant from == FIRST_XMM ==> forall q: nat :: from <= q < r && used[q] ==> Aligned(saved[q], 16)
    {
      if !used[r] { continue; }
      depth := if r >= FIRST_XMM then AlignTo(depth + 16, 16) else depth + 8;
      if r >= FIRST_XMM { NegativeIsAligned(depth, 16); }
      saved := saved[r := -depth];
    }
  }

  method LayoutSlots(slots: seq<Slot>, start: int) returns (offsets: seq<int>, depth: int)
    requires start >= 0 && forall i :: 0 <= i < |slots| ==> slots[i].size >= 1 && slots[i].align >= 1
    ensures |offsets| == |slots| && depth >= start
    ensures forall i :: 0 <= i < |slots| ==> -depth <= offsets[i] && offsets[i] + slots[i].size <= -start
    ensures forall i, j :: 0 <= i < j < |slots| ==> offsets[j] + slots[j].size <= offsets[i]
    ensures forall i :: 0 <= i < |slots| ==> Aligned(offsets[i], SlotAlign(slots[i]))
  {
    offsets, depth := [], start;
    for i := 0 to |slots|
      invariant |offsets| == i && depth >= start
      invariant forall k :: 0 <= k < i ==> -depth <= offsets[k] && offsets[k] + slots[k].size <= -start
      invariant forall k, j :: 0 <= k < j < i ==> offsets[j] + slots[j].size <= offsets[k]
      invariant forall k :: 0 <= k < i ==> Aligned(offsets[k], SlotAlign(slots[k]))
    {
      depth := AlignTo(depth + slots[i].size, SlotAlign(slots[i]));
      NegativeIsAligned(depth, SlotAlign(slots[i]));
      offsets := offsets + [-depth];
    }
  }

  // The most arguments of a call, -1 without calls
  method MostArguments(code: seq<seq<RawInst>>) returns (most: int)
    ensures most >= -1
    ensures forall b, k, i: nat :: 0 <= b < |code| && 0 <= k < |code[b]| && NeedsArgument(code[b][k], i) ==>
      most >= 0 && i < (if most > 4 then most else 4)
  {
    most := -1;
    for b := 0 to |code|
      invariant most >= -1
      invariant forall c, k, i: nat :: 0 <= c < b && 0 <= k < |code[c]| && NeedsArgument(code[c][k], i) ==>
        most >= 0 && i < (if most > 4 then most else 4)
    {
      for k := 0 to |code[b]|
        invariant most >= -1
        invariant forall c, j, i: nat :: 0 <= c < b && 0 <= j < |code[c]| && NeedsArgument(code[c][j], i) ==>
          most >= 0 && i < (if most > 4 then most else 4)
        invariant forall j, i: nat :: 0 <= j < k && NeedsArgument(code[b][j], i) ==>
          most >= 0 && i < (if most > 4 then most else 4)
      {
        var inst := code[b][k];
        if inst.op == CallOp && |inst.call.args| > most { most := |inst.call.args|; }
        if (inst.op == Memcpy || inst.op == Memset) && most < 3 { most := 3; }
      }
    }
  }

  // The xmm registers are on top of the general ones.
  lemma BanksAreApart(needs: FrameNeeds, frame: FrameLayout, depth: int, saved: int)
    requires needs.Valid() && |frame.savedOffset| == REG_COUNT && 0 <= depth <= saved
    requires SavedSoFar(needs.used, frame.savedOffset, FIRST_XMM, REG_COUNT, -depth, 0)
    requires SavedSoFar(needs.used, frame.savedOffset, 0, FIRST_XMM, -saved, -depth)
    requires forall r: nat :: FIRST_XMM <= r < REG_COUNT && needs.used[r] ==> Aligned(frame.savedOffset[r], 16)
    ensures SavedOk(needs, frame, -saved, 0)
  {
    forall r: nat, q: nat | r < REG_COUNT && q < REG_COUNT && r != q && needs.used[r] && needs.used[q]
      ensures Apart(SavedRegion(frame, r), SavedRegion(frame, q))
    {
      if q < r {
        assert q >= FIRST_XMM || r < FIRST_XMM ==> frame.savedOffset[r] + SavedSize(r) <= frame.savedOffset[q];
      } else {
        assert r >= FIRST_XMM || q < FIRST_XMM ==> frame.savedOffset[q] + SavedSize(q) <= frame.savedOffset[r];
      }
    }
  }

  lemma SavedSoFarIsKept(used: seq<bool>, before: seq<int>, after: seq<int>, from: nat, to: nat, low: int, high: int)
    requires |used| == REG_COUNT == |before| == |after| && to <= REG_COUNT
    requires SavedSoFar(used, before, from, to, low, high)
    requires forall r :: from <= r < to ==> after[r] == before[r]
    ensures SavedSoFar(used, after, from, to, low, high)
  {
  }

  lemma SumIsAligned(depth: int, outgoing: int)
    requires depth >= 0 && outgoing >= 0
    ensures Aligned(AlignTo(depth, 16) + AlignTo(outgoing, 16), 16)
  {
    var p :| AlignTo(depth, 16) == Multiple(p, 16);
    var q :| AlignTo(outgoing, 16) == Multiple(q, 16);
    assert AlignTo(depth, 16) + AlignTo(outgoing, 16) == Multiple(p + q, 16);
  }

  lemma SpillBaseIsAligned(depth: int)
    requires Aligned(depth, 8)
    ensures Aligned(-(depth + 8), 8)
  {
    var q :| depth == Multiple(q, 8);
    assert -(depth + 8) == Multiple(-q - 1, 8);
  }

  // Returns how deep the frame is after the saved registers, the slots and the spill slots as well.
  method LayoutFrame(needs: FrameNeeds) returns (frame: FrameLayout, saved: int, slots: int, spills: int)
    requires needs.Valid()
    ensures LaidOut(needs, frame, saved, slots, spills)
  {
    var offsets, depth := SaveRegisters(needs.used, seq(REG_COUNT, _ => 0), FIRST_XMM, REG_COUNT, 0);
    ghost var xmm, xmmDepth := offsets, depth;
    offsets, depth := SaveRegisters(needs.used, offsets, 0, FIRST_XMM, depth);
    saved := depth;
    var slotOffsets;
    slotOffsets, depth := LayoutSlots(needs.slots, depth);
    depth := AlignTo(depth, 8);
    slots := depth;
    var spillBase := -(depth + 8);
    depth := depth + 8 * needs.spillCount;
    spills := depth;
    var most := MostArguments(needs.code);
    var outgoing := if most >= 0 then 32 + 8 * (if most > 4 then most - 4 else 0) else 0;
    SumIsAligned(depth, outgoing);
    SpillBaseIsAligned(slots);
    frame := FrameLayout(offsets, slotOffsets, spillBase, AlignTo(depth, 16) + AlignTo(outgoing, 16));
    forall i: nat | SomeCallNeeds(needs, i)
      ensures Inside(ArgumentRegion(frame, i), -frame.frameSize, -spills)
    {
      var b, k :| 0 <= b < |needs.code| && 0 <= k < |needs.code[b]| && NeedsArgument(needs.code[b][k], i);
    }
    SavedSoFarIsKept(needs.used, xmm, offsets, FIRST_XMM, REG_COUNT, -xmmDepth, 0);
    BanksAreApart(needs, frame, xmmDepth, saved);
  }
}
