/** When a file can hold the relocations: exactly when no section has more of them left than its header can count. */
module CoffLimits {
  import opened LittleEndians
  import opened Objects
  import opened CoffFormat
  import opened CoffWriter
  import opened CoffReader
  import opened CoffRoundTrip
  import opened CoffLinked

  // ---------------------------------------------------------------------------------------
  // A lost relocation
  // ---------------------------------------------------------------------------------------

  // The symbol of relocation i is at distance d, and everything else is at 0.
  function MovedTo(obj: Object, i: nat, d: int): Layout
    requires ValidFields(obj) && i < |obj.relocs|
  {
    var section := obj.symbols[obj.relocs[i].symbol].section;
    Layout((s: nat) => if s == section then d else 0, (name: Name) => d, 0)
  }

  // The value of a relocation that is left moves with its symbol.
  lemma ValueMoves(obj: Object, i: nat, d: int)
    requires IsAssembled(obj) && i < |obj.relocs| && !IsResolved(obj, i)
    ensures Value(obj, MovedTo(obj, i, d), obj.relocs[i]) == Value(obj, MovedTo(obj, i, 0), obj.relocs[i]) + d
  {
    assert ValidReloc(obj.relocs[i]);
  }

  lemma NextValueDiffers(value: int, size: nat)
    requires size > 0
    ensures LittleEndian(value, size) != LittleEndian(value + 1, size)
  {
    assert LittleEndian(value, size)[0] == value % 256 && LittleEndian(value + 1, size)[0] == (value + 1) % 256;
  }

  // No relocation that is read touches the field of one that is not, so the field keeps the addend that the writer put
  // there, wherever the sections are.
  lemma LostFieldStays(obj: Object, sections: Sections, at: Layout, i: nat)
    requires IsAssembled(obj) && IsWritten(obj, sections) && ValidFields(ObjectBack(obj, sections))
    requires i < |obj.relocs| && !IsResolved(obj, i) && i !in ReadOrder(obj)
    ensures Holds(Link(ObjectBack(obj, sections), at), obj.relocs[i], FieldAddend(obj, i))
  {
    hide IsResolved, FieldAddend, RelocsBack, SymbolsBack;
    var read, order, r := ObjectBack(obj, sections), ReadOrder(obj), obj.relocs[i];
    assert IsDone(obj, i, |obj.relocs|, |obj.relocs|);
    assert WrittenValue(obj, i) == FieldAddend(obj, i);
    forall j | 0 <= j < |read.relocs|
      ensures Apart(read.relocs[j], r)
    {
      assert read.relocs[j] == RelocBack(obj, order[j]);
      ApartEitherWay(obj, order[j], i);
    }
    UntouchedHolds(read, at, |read.relocs|, r, FieldAddend(obj, i));
  }

  // With the symbol in two places, one of the two programs has another byte in the field.
  lemma LostRelocShows(obj: Object, sections: Sections, i: nat) returns (at: Layout)
    requires IsAssembled(obj) && IsWritten(obj, sections) && ValidFields(ObjectBack(obj, sections))
    requires i < |obj.relocs| && !IsResolved(obj, i) && i !in ReadOrder(obj)
    ensures Link(ObjectBack(obj, sections), at) != Link(obj, at)
  {
    hide ValidReloc, ValidSymbol, IsWritten, IsResolved, ObjectBack, ReadOrder, MovedTo, Value, LittleEndian, FieldAddend, LinkUpTo;
    var r, here, there := obj.relocs[i], MovedTo(obj, i, 0), MovedTo(obj, i, 1);
    LostFieldStays(obj, sections, here, i);
    LostFieldStays(obj, sections, there, i);
    LinkedHolds(obj, here, |obj.relocs|, i);
    LinkedHolds(obj, there, |obj.relocs|, i);
    ValueMoves(obj, i, 1);
    NextValueDiffers(Value(obj, here, r), r.Size());
    at := if Link(ObjectBack(obj, sections), here) != Link(obj, here) then here else there;
  }

  // ---------------------------------------------------------------------------------------
  // The exact condition
  // ---------------------------------------------------------------------------------------

  lemma TooManyShow(obj: Object, sections: Sections) returns (at: Layout)
    requires IsAssembled(obj) && IsWritten(obj, sections) && ValidFields(ObjectBack(obj, sections)) && !CanCount(obj)
    ensures Link(ObjectBack(obj, sections), at) != Link(obj, at)
  {
    hide ValidFields, ValidReloc, ValidSymbol, IsWritten, IsResolved, ObjectBack, ReadOrder, LeftIn, Link;
    var s: nat :| s < SECTION_COUNT && |LeftIn(obj, s, |obj.relocs|)| >= MAX_COUNT;
    LastIsLost(obj, s);
    var left := LeftIn(obj, s, |obj.relocs|);
    at := LostRelocShows(obj, sections, left[|left| - 1]);
  }

  lemma ObjectBackLinksIff(obj: Object, sections: Sections)
    requires IsAssembled(obj) && IsWritten(obj, sections) && ValidFields(ObjectBack(obj, sections))
    ensures (forall at: Layout :: Link(ObjectBack(obj, sections), at) == Link(obj, at)) <==> CanCount(obj)
  {
    hide ValidFields, ValidReloc, ValidSymbol, IsWritten, ObjectBack, CanCount, Link;
    if CanCount(obj) {
      forall at: Layout
        ensures Link(ObjectBack(obj, sections), at) == Link(obj, at)
      {
        ObjectBackLinks(obj, sections, at);
      }
    } else {
      var at := TooManyShow(obj, sections);
    }
  }

  // What is read back from the file links to the same program for every layout, if and only if the headers can count
  // the relocations.
  lemma RoundTripLinksIff(obj: Object, alignment: seq<nat>, sections: Sections)
    requires IsAssembled(obj) && ValidAlignment(alignment) && IsWritten(obj, sections)
    ensures ValidNames(FileOf(obj, alignment, sections)) && ReadFile(FileOf(obj, alignment, sections)).Read?
    ensures ValidFields(ReadFile(FileOf(obj, alignment, sections)).obj)
    ensures (forall at: Layout :: Link(ReadFile(FileOf(obj, alignment, sections)).obj, at) == Link(obj, at)) <==> CanCount(obj)
  {
    FileIsRead(obj, alignment, sections);
    BackIsValid(obj, sections);
    ObjectBackLinksIff(obj, sections);
  }

  // ---------------------------------------------------------------------------------------
  // An object that is too large
  // ---------------------------------------------------------------------------------------

  // The assembler makes this of a data section with n addresses of an extern.
  function Addresses(n: nat): Object {
    Object([[], Zeros(8 * n), []], [Symbol([97], -1, 0, false, true)], seq(n, (i: nat) => Reloc(1, 8 * i, Abs64, 0, 0, 0)))
  }

  lemma AddressesAreValid(n: nat)
    ensures ValidFields(Addresses(n))
  {
  }

  lemma AddressesAreAssembled(n: nat)
    ensures IsAssembled(Addresses(n))
  {
    var obj := Addresses(n);
    AddressesAreValid(n);
    forall t | 0 <= t < SECTION_COUNT
      ensures [97] != LocalName(SectionName(t), t)
    {
      assert |LocalName(SectionName(t), t)| > 1;
    }
    assert ValidSymbol(obj.symbols[0]);
    assert StringsOf(obj.symbols, 1) == StringsOf(obj.symbols, 0);
    assert Range(0) == 1 && Range(1) == 256 && Range(2) == 0x1_0000;
  }

  lemma {:induction false} AddressesAreLeft(n: nat, k: nat)
    requires k <= n && ValidFields(Addresses(n))
    ensures |LeftIn(Addresses(n), 1, k)| == k
    decreases k
  {
    if k > 0 {
      AddressesAreLeft(n, k - 1);
    }
  }

  lemma {:induction false} ZeroInBytes(size: nat)
    ensures LittleEndian(0, size) == Zeros(size)
    decreases size
  {
    if size > 0 {
      ZeroInBytes(size - 1);
    }
  }

  // The addends are zero, and so are the bytes that are there already.
  lemma AddressesAreWritten(n: nat)
    ensures ValidFields(Addresses(n)) && IsWritten(Addresses(n), Addresses(n).sections)
  {
    AddressesAreValid(n);
    var obj := Addresses(n);
    forall i: nat | i < |obj.relocs| && IsDone(obj, i, n, n)
      ensures Holds(obj.sections, obj.relocs[i], WrittenValue(obj, i))
    {
      ZeroInBytes(8);
      assert FieldOf(obj.sections, obj.relocs[i]) == Zeros(8);
    }
  }

  // From 65536 addresses on, reading the file back gives another program.
  lemma TooManyAddresses(n: nat, alignment: seq<nat>) returns (at: Layout)
    requires n >= MAX_COUNT && ValidAlignment(alignment)
    ensures IsAssembled(Addresses(n)) && IsWritten(Addresses(n), Addresses(n).sections)
    ensures var file := FileOf(Addresses(n), alignment, Addresses(n).sections);
            ValidNames(file) && ReadFile(file).Read? && ValidFields(ReadFile(file).obj) &&
            Link(ReadFile(file).obj, at) != Link(Addresses(n), at)
  {
    hide ValidReloc, ValidSymbol, IsWritten, FileOf, Link, ReadFile, LeftIn;
    AddressesAreAssembled(n);
    AddressesAreWritten(n);
    AddressesAreLeft(n, n);
    var obj := Addresses(n);
    assert |LeftIn(obj, 1, |obj.relocs|)| >= MAX_COUNT;
    RoundTripLinksIff(obj, alignment, obj.sections);
    at :| Link(ReadFile(FileOf(obj, alignment, obj.sections)).obj, at) != Link(obj, at);
  }
}
