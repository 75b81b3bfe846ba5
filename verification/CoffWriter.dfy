/** Writing an object as the records of a COFF file. */
module CoffWriter {
  import opened LittleEndians
  import opened Objects
  import opened CoffFormat

  // Moving a section keeps the distances in it, so the value of such a relocation does not depend on the layout.
  predicate IsResolved(obj: Object, i: nat)
    requires ValidFields(obj) && i < |obj.relocs|
  {
    obj.relocs[i].kind.Rel32? && obj.symbols[obj.relocs[i].symbol].section == obj.relocs[i].section
  }

  // A symbol that gets no record is reached through the one of its section.
  function FieldAddend(obj: Object, i: nat): int
    requires ValidFields(obj) && i < |obj.relocs|
  {
    var r := obj.relocs[i];
    var s := obj.symbols[r.symbol];
    if s.IsExternal() then r.addend else r.addend + s.offset
  }

  function LocalValue(obj: Object, i: nat): int
    requires ValidFields(obj) && i < |obj.relocs|
  {
    var r := obj.relocs[i];
    obj.symbols[r.symbol].offset + r.addend - (r.offset + 4 + r.trailing)
  }

  // What is in the field in the file: the value where it is known, and the addend where the linker goes on
  function WrittenValue(obj: Object, i: nat): int
    requires ValidFields(obj) && i < |obj.relocs|
  {
    if IsResolved(obj, i) then LocalValue(obj, i) else FieldAddend(obj, i)
  }

  // The fields of the first m relocations that are resolved, and of the first n that are not, are written.
  predicate IsDone(obj: Object, i: nat, m: nat, n: nat)
    requires ValidFields(obj) && i < |obj.relocs|
  {
    if IsResolved(obj, i) then i < m else i < n
  }

  predicate Patched(obj: Object, sections: Sections, m: nat, n: nat)
    requires ValidFields(obj)
  {
    && AgreeOutside(obj.relocs, obj.sections, sections)
    && forall i: nat :: i < |obj.relocs| && IsDone(obj, i, m, n) ==> Holds(sections, obj.relocs[i], WrittenValue(obj, i))
  }

  predicate IsWritten(obj: Object, sections: Sections)
    requires ValidFields(obj)
  {
    Patched(obj, sections, |obj.relocs|, |obj.relocs|)
  }

  lemma PatchOne(obj: Object, sections: Sections, m: nat, n: nat, i: nat, after: Sections, m': nat, n': nat)
    requires ValidFields(obj) && Patched(obj, sections, m, n) && i < |obj.relocs| && obj.relocs[i].FitsIn(sections)
    requires after == Put(sections, obj.relocs[i], WrittenValue(obj, i))
    requires forall j: nat :: j < |obj.relocs| && j != i && IsDone(obj, j, m', n') ==> IsDone(obj, j, m, n)
    ensures Patched(obj, after, m', n')
  {
    var r, value := obj.relocs[i], WrittenValue(obj, i);
    PutAgrees(obj.relocs, obj.sections, sections, i, value);
    forall j: nat | j < |obj.relocs| && IsDone(obj, j, m', n')
      ensures Holds(after, obj.relocs[j], WrittenValue(obj, j))
    {
      if j != i {
        assert j < i ==> Apart(obj.relocs[j], r);
        assert i < j ==> Apart(r, obj.relocs[j]);
        StillHolds(sections, r, value, obj.relocs[j], WrittenValue(obj, j));
      }
    }
  }

  lemma PatchNone(obj: Object, sections: Sections, m: nat, i: nat)
    requires ValidFields(obj) && Patched(obj, sections, m, i) && i < |obj.relocs| && IsResolved(obj, i)
    ensures Patched(obj, sections, m, i + 1)
  {
  }

  // ---------------------------------------------------------------------------------------
  // The records
  // ---------------------------------------------------------------------------------------

  function SectionRecord(s: nat): CoffSymbol {
    CoffSymbol(NameField(SectionName(s), 0), 0, s + 1, STATIC, 0)
  }

  function SectionRecords(n: nat): (records: seq<CoffSymbol>)
    ensures |records| == n && forall s :: 0 <= s < n ==> records[s] == SectionRecord(s)
    decreases n
  {
    if n == 0 then [] else SectionRecords(n - 1) + [SectionRecord(n - 1)]
  }

  // The table of strings for the first n symbols, before its size is set
  function StringsOf(symbols: seq<Symbol>, n: nat): (strings: seq<int>)
    requires n <= |symbols|
    ensures |strings| >= 4
    decreases n
  {
    if n == 0 then Zeros(4)
    else if symbols[n - 1].IsExternal() && |symbols[n - 1].name| > 8 then StringsOf(symbols, n - 1) + (symbols[n - 1].name + [0])
    else StringsOf(symbols, n - 1)
  }

  function SymbolRecord(s: Symbol, stringsSize: nat): CoffSymbol {
    CoffSymbol(NameField(s.name, stringsSize), if s.section >= 0 then s.offset else 0, if s.section >= 0 then s.section + 1 else 0,
               EXTERNAL, 0)
  }

  // The records of the sections, then of the globals and the externs among the first n symbols
  function RecordsOf(symbols: seq<Symbol>, n: nat): (records: seq<CoffSymbol>)
    requires n <= |symbols|
    ensures |records| >= SECTION_COUNT
    decreases n
  {
    if n == 0 then SectionRecords(SECTION_COUNT)
    else if symbols[n - 1].IsExternal() then
      RecordsOf(symbols, n - 1) + [SymbolRecord(symbols[n - 1], |StringsOf(symbols, n - 1)|)]
    else RecordsOf(symbols, n - 1)
  }

  // The record of each of the first n symbols, or -1
  function IndexesOf(symbols: seq<Symbol>, n: nat): (indexes: seq<int>)
    requires n <= |symbols|
    ensures |indexes| == n
    ensures forall i :: 0 <= i < n ==> indexes[i] == if symbols[i].IsExternal() then |RecordsOf(symbols, i)| else -1
    decreases n
  {
    if n == 0 then []
    else IndexesOf(symbols, n - 1) + [if symbols[n - 1].IsExternal() then |RecordsOf(symbols, n - 1)| else -1]
  }

  function SizedStrings(strings: seq<int>): seq<int>
    requires |strings| >= 4
  {
    LittleEndian(|strings|, 4) + strings[4..]
  }

  function Target(obj: Object, i: nat): int
    requires ValidFields(obj) && i < |obj.relocs|
  {
    var index := obj.relocs[i].symbol;
    var s := obj.symbols[index];
    if s.IsExternal() then |RecordsOf(obj.symbols, index)| else s.section
  }

  function RelocRecord(obj: Object, i: nat): CoffReloc
    requires ValidFields(obj) && i < |obj.relocs|
  {
    var r := obj.relocs[i];
    CoffReloc(r.offset, Target(obj, i), if r.kind.Abs64? then 1 else 4 + r.trailing)
  }

  // The relocations among the first n that are left for the linker in a section
  function LeftIn(obj: Object, s: nat, n: nat): (which: seq<nat>)
    requires ValidFields(obj) && n <= |obj.relocs|
    ensures forall j :: 0 <= j < |which| ==> which[j] < n && !IsResolved(obj, which[j]) && obj.relocs[which[j]].section == s
    ensures forall i, j :: 0 <= i < j < |which| ==> which[i] < which[j]
    decreases n
  {
    if n == 0 then []
    else if !IsResolved(obj, n - 1) && obj.relocs[n - 1].section == s then LeftIn(obj, s, n - 1) + [n - 1]
    else LeftIn(obj, s, n - 1)
  }

  function RelocRecords(obj: Object, s: nat, n: nat): (records: seq<CoffReloc>)
    requires ValidFields(obj) && n <= |obj.relocs|
    ensures |records| == |LeftIn(obj, s, n)|
    ensures forall j :: 0 <= j < |records| ==> records[j] == RelocRecord(obj, LeftIn(obj, s, n)[j])
    decreases n
  {
    if n == 0 then []
    else if !IsResolved(obj, n - 1) && obj.relocs[n - 1].section == s then RelocRecords(obj, s, n - 1) + [RelocRecord(obj, n - 1)]
    else RelocRecords(obj, s, n - 1)
  }

  // The header counts the relocations of a section in 16 bits.
  function WrittenSection(obj: Object, s: nat, alignment: nat, sections: Sections): CoffSection
    requires ValidFields(obj) && s < |sections| && alignment <= 0x8000_0000
  {
    var relocs := RelocRecords(obj, s, |obj.relocs|);
    CoffSection(|sections[s]|, sections[s], relocs, |relocs| % 0x1_0000, Flags(s, alignment))
  }

  predicate ValidAlignment(alignment: seq<nat>) {
    |alignment| == SECTION_COUNT && forall s :: 0 <= s < SECTION_COUNT ==> alignment[s] <= 0x8000_0000
  }

  function SectionsOf(obj: Object, alignment: seq<nat>, sections: Sections): (written: seq<CoffSection>)
    requires ValidFields(obj) && |sections| == SECTION_COUNT && ValidAlignment(alignment)
    ensures |written| == SECTION_COUNT
    ensures forall s :: 0 <= s < SECTION_COUNT ==> written[s] == WrittenSection(obj, s, alignment[s], sections)
  {
    seq(SECTION_COUNT, s requires 0 <= s < SECTION_COUNT => WrittenSection(obj, s, alignment[s], sections))
  }

  function FileOf(obj: Object, alignment: seq<nat>, sections: Sections): CoffFile
    requires ValidFields(obj) && |sections| == SECTION_COUNT && ValidAlignment(alignment)
  {
    CoffFile(SectionsOf(obj, alignment, sections),
             RecordsOf(obj.symbols, |obj.symbols|), SizedStrings(StringsOf(obj.symbols, |obj.symbols|)))
  }

  // The symbol records and the table of strings, and the record of each symbol
  method WriteSymbols(symbols: seq<Symbol>) returns (made: seq<CoffSymbol>, table: seq<int>, indexes: seq<int>)
    ensures made == RecordsOf(symbols, |symbols|) && table == SizedStrings(StringsOf(symbols, |symbols|))
    ensures indexes == IndexesOf(symbols, |symbols|)
  {
    made, table, indexes := [], Zeros(4), [];
    for s := 0 to SECTION_COUNT
      invariant made == SectionRecords(s)
    {
      made := made + [CoffSymbol(NameField(SectionName(s), 0), 0, s + 1, STATIC, 0)];
    }
    for i := 0 to |symbols|
      invariant made == RecordsOf(symbols, i) && table == StringsOf(symbols, i) && indexes == IndexesOf(symbols, i)
    {
      var s := symbols[i];
      if s.isGlobal || s.isExtern {
        indexes := indexes + [|made|];
        made := made + [SymbolRecord(s, |table|)];
        if |s.name| > 8 {
          table := table + (s.name + [0]);
        }
      } else {
        indexes := indexes + [-1];
      }
    }
    table := LittleEndian(|table|, 4) + table[4..];
  }

  predicate AreRecords(obj: Object, records: seq<seq<CoffReloc>>, n: nat)
    requires ValidFields(obj) && n <= |obj.relocs|
  {
    |records| == SECTION_COUNT && forall s :: 0 <= s < SECTION_COUNT ==> records[s] == RelocRecords(obj, s, n)
  }

  lemma NoRecord(obj: Object, records: seq<seq<CoffReloc>>, i: nat)
    requires ValidFields(obj) && i < |obj.relocs| && AreRecords(obj, records, i) && IsResolved(obj, i)
    ensures AreRecords(obj, records, i + 1)
  {
  }

  lemma OneRecord(obj: Object, records: seq<seq<CoffReloc>>, i: nat, s: nat)
    requires ValidFields(obj) && i < |obj.relocs| && AreRecords(obj, records, i) && !IsResolved(obj, i)
    requires obj.relocs[i].section == s < SECTION_COUNT
    ensures AreRecords(obj, records[s := records[s] + [RelocRecord(obj, i)]], i + 1)
  {
  }

  method WriteSections(ghost obj: Object, alignment: seq<nat>, sections: Sections, records: seq<seq<CoffReloc>>)
    returns (written: seq<CoffSection>)
    requires ValidFields(obj) && |sections| == SECTION_COUNT && ValidAlignment(alignment) && AreRecords(obj, records, |obj.relocs|)
    ensures written == SectionsOf(obj, alignment, sections)
  {
    written := [];
    for s := 0 to SECTION_COUNT
      invariant |written| == s && forall t :: 0 <= t < s ==> written[t] == WrittenSection(obj, t, alignment[t], sections)
    {
      written := written + [CoffSection(|sections[s]|, sections[s], records[s], |records[s]| % 0x1_0000, Flags(s, alignment[s]))];
    }
  }

  class AsmObject {
    var sections: Sections
    var symbols: seq<Symbol>
    var relocs: seq<Reloc>
    var alignment: seq<nat>

    constructor (obj: Object, alignment: seq<nat>)
      ensures Value() == obj && this.alignment == alignment
    {
      this.sections, this.symbols, this.relocs, this.alignment := obj.sections, obj.symbols, obj.relocs, alignment;
    }

    function Value(): Object
      reads this
    {
      Object(sections, symbols, relocs)
    }

    method ResolveLocalRelocs()
      requires ValidFields(Value())
      modifies `sections
      ensures Patched(old(Value()), sections, |relocs|, 0)
    {
      ghost var obj := Value();
      for i := 0 to |relocs|
        invariant Value() == obj.(sections := sections) && Patched(obj, sections, i, 0)
      {
        var r := relocs[i];
        assert r.FitsIn(obj.sections);
        if r.kind.Rel32? && symbols[r.symbol].section == r.section {
          ghost var before := sections;
          sections := Put(sections, r, symbols[r.symbol].offset + r.addend - (r.offset + 4 + r.trailing));
          PatchOne(obj, before, i, 0, i, sections, i + 1, 0);
        }
      }
    }

    // Puts the addend of a relocation that is left into its field; obj is the object before anything was written.
    method WriteReloc(ghost obj: Object, indexes: seq<int>, i: nat) returns (record: CoffReloc)
      requires ValidFields(obj) && Value() == obj.(sections := sections) && i < |relocs| && !IsResolved(obj, i)
      requires Patched(obj, sections, |relocs|, i) && indexes == IndexesOf(symbols, |symbols|)
      modifies `sections
      ensures Value() == obj.(sections := sections) && Patched(obj, sections, |relocs|, i + 1)
      ensures record == RelocRecord(obj, i)
    {
      var r := relocs[i];
      assert r.FitsIn(obj.sections);
      var s := symbols[r.symbol];
      var addend, target := r.addend, indexes[r.symbol];
      if target < 0 {
        target := s.section;
        addend := addend + s.offset;
      }
      ghost var before := sections;
      sections := Put(sections, r, addend);
      PatchOne(obj, before, |relocs|, i, i, sections, |relocs|, i + 1);
      record := CoffReloc(r.offset, target, if r.kind.Abs64? then 1 else 4 + r.trailing);
    }

    method WriteRelocs(ghost obj: Object, indexes: seq<int>) returns (records: seq<seq<CoffReloc>>)
      requires ValidFields(obj) && Value() == obj.(sections := sections) && |obj.sections| == SECTION_COUNT
      requires Patched(obj, sections, |relocs|, 0) && indexes == IndexesOf(symbols, |symbols|)
      modifies `sections
      ensures Value() == obj.(sections := sections) && IsWritten(obj, sections)
      ensures AreRecords(obj, records, |relocs|)
    {
      hide Patched, IsDone, RelocRecord, RelocRecords;
      records := [[], [], []];
      for i := 0 to |relocs|
        invariant Value() == obj.(sections := sections) && Patched(obj, sections, |relocs|, i)
        invariant AreRecords(obj, records, i)
      {
        var r := relocs[i];
        if r.kind.Rel32? && symbols[r.symbol].section == r.section {
          PatchNone(obj, sections, |relocs|, i);
          NoRecord(obj, records, i);
        } else {
          assert obj.relocs[i].FitsIn(obj.sections);
          OneRecord(obj, records, i, r.section);
          var record := WriteReloc(obj, indexes, i);
          records := records[r.section := records[r.section] + [record]];
        }
      }
    }

    // Writes the file. The fields in the sections are patched on the way.
    method CoffWrite() returns (file: CoffFile)
      requires ValidFields(Value()) && |sections| == SECTION_COUNT && ValidAlignment(alignment)
      modifies `sections
      ensures IsWritten(old(Value()), sections)
      ensures |sections| == SECTION_COUNT && file == FileOf(old(Value()), alignment, sections)
    {
      ghost var obj := Value();
      ResolveLocalRelocs();
      var symbolRecords, strings, indexes := WriteSymbols(symbols);
      var records := WriteRelocs(obj, indexes);
      var written := WriteSections(obj, alignment, sections, records);
      file := CoffFile(written, symbolRecords, strings);
    }
  }
}
